/**
 * The sign-up form's submit handler: three validation checks in a fixed order,
 * then the account request and its outcome.
 */
module SignupForm {
  import opened Wrappers

  const MissingFieldsError: string := "Please fill in all required fields"
  const MismatchError: string := "Passwords do not match"
  const ShortPasswordError: string := "Password must be at least 6 characters long"
  const MinPasswordLength: nat := 6

  /** The first validation check that fails, or `None` when all pass. */
  function Validate(email: string, password: string, confirmPassword: string): (e: Option<string>)
  {
    if email == "" || password == "" || confirmPassword == "" then Some(MissingFieldsError)
    else if password != confirmPassword then Some(MismatchError)
    else if |password| < MinPasswordLength then Some(ShortPasswordError)
    else None
  }

  /**
   * The checks in order: a missing field is reported first, whatever else is wrong;
   * a mismatch next; a short password last; and the form passes exactly when every
   * field is filled, the passwords agree and are at least six characters long.
   */
  lemma ValidationOrder(email: string, password: string, confirmPassword: string)
    ensures var e := Validate(email, password, confirmPassword);
      && (e == Some(MissingFieldsError) <==> email == "" || password == "" || confirmPassword == "")
      && (e == Some(MismatchError) <==>
            email != "" && password != "" && confirmPassword != "" && password != confirmPassword)
      && (e == Some(ShortPasswordError) <==>
            email != "" && password != "" && password == confirmPassword && |password| < MinPasswordLength)
      && (e.None? <==>
            email != "" && password == confirmPassword && |password| >= MinPasswordLength)
  {
    assert |MissingFieldsError| == 34 && |MismatchError| == 22 && |ShortPasswordError| == 43;
  }

  /** The request `signUp(email, password, fullName || undefined)`. */
  datatype SignUpCall = SignUpCall(email: string, password: string, fullName: Option<string>)

  class Form {
    var email: string
    var password: string
    var confirmPassword: string
    var fullName: string
    var loading: bool
    var error: string

    constructor()
      ensures email == "" && password == "" && confirmPassword == "" && fullName == ""
      ensures !loading && error == ""
    {
      email := "";
      password := "";
      confirmPassword := "";
      fullName := "";
      loading := false;
      error := "";
    }

    /**
     * The part of `handleSubmit` before the account request: a failed check sets its
     * message and returns without loading; otherwise loading starts, the error is
     * cleared, and the request to make is returned, with an empty full name left out.
     */
    method Submit() returns (call: Option<SignUpCall>)
      modifies this
      ensures var v := Validate(email, password, confirmPassword);
        && (v.Some? ==> call.None? && error == v.value && loading == old(loading))
        && (v.None? ==>
              error == "" && loading
              && call == Some(SignUpCall(email, password, if fullName == "" then None else Some(fullName))))
      ensures email == old(email) && password == old(password)
      ensures confirmPassword == old(confirmPassword) && fullName == old(fullName)
    {
      var v := Validate(email, password, confirmPassword);
      if v.Some? {
        error := v.value;
        return None;
      }
      loading := true;
      error := "";
      call := Some(SignUpCall(email, password, if fullName == "" then None else Some(fullName)));
    }

    /**
     * The account request returned `failure` (the error's message when it failed):
     * a failure's message is shown; success reports to the caller; loading stops.
     */
    method SignUpReturned(failure: Option<string>) returns (succeeded: bool)
      modifies this
      ensures succeeded == failure.None?
      ensures failure.Some? ==> error == failure.value
      ensures failure.None? ==> error == old(error)
      ensures !loading
      ensures email == old(email) && password == old(password)
      ensures confirmPassword == old(confirmPassword) && fullName == old(fullName)
    {
      if failure.Some? {
        error := failure.value;
        succeeded := false;
      } else {
        succeeded := true;
      }
      loading := false;
    }

    /**
     * `handleSubmit` as a whole: when validation fails the request is never made and
     * nothing is left loading; when it passes the request carries the form's fields,
     * and at the end the error is the request's failure message or empty.
     */
    method HandleSubmit(failure: Option<string>) returns (call: Option<SignUpCall>, succeeded: bool)
      requires !loading
      modifies this
      ensures !loading
      ensures Validate(old(email), old(password), old(confirmPassword)).Some? ==>
        call.None? && !succeeded && error == Validate(old(email), old(password), old(confirmPassword)).value
      ensures Validate(old(email), old(password), old(confirmPassword)).None? ==>
        && call == Some(SignUpCall(old(email), old(password), if old(fullName) == "" then None else Some(old(fullName))))
        && succeeded == failure.None?
        && error == (if failure.Some? then failure.value else "")
      ensures email == old(email) && password == old(password)
      ensures confirmPassword == old(confirmPassword) && fullName == old(fullName)
    {
      call := Submit();
      succeeded := false;
      if call.Some? {
        succeeded := SignUpReturned(failure);
      }
    }
  }
}
