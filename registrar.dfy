/** The sign-up page (Registrar.jsx): name, e-mail, password and its
    confirmation, checked before the registration request. The server's answer
    is an input. */
module Registrar {
  import opened Common

  /** The shortest password accepted. */
  const MinPassword: nat := 6

  /** The errors the page shows. */
  datatype RegisterError = Mismatch | TooShort | Backend(text: string)

  /** The checks of `handleSubmit`, in order: the confirmation first, then the length. */
  function CheckPasswords(password: string, confirmPassword: string): (r: Option<RegisterError>)
    ensures r.None? <==> password == confirmPassword && |password| >= MinPassword
    ensures r == Some(Mismatch) <==> password != confirmPassword
    ensures r == Some(TooShort) <==> password == confirmPassword && |password| < MinPassword
  {
    if password != confirmPassword then Some(Mismatch)
    else if |password| < MinPassword then Some(TooShort)
    else None
  }

  /** A short password whose confirmation differs is reported as a mismatch. */
  lemma MismatchFirst(password: string, confirmPassword: string)
    requires password != confirmPassword && |password| < MinPassword
    ensures CheckPasswords(password, confirmPassword) == Some(Mismatch)
  {
  }

  /** The body of the registration request: the confirmation is not part of it. */
  datatype RegisterRequest = RegisterRequest(nombre: string, email: string, password: string)

  /** The page's state. */
  class SignUpPage {
    var nombre: string
    var email: string
    var password: string
    var confirmPassword: string
    var error: Option<RegisterError>
    var isLoading: bool

    constructor ()
      ensures nombre == "" && email == "" && password == "" && confirmPassword == ""
      ensures error.None? && !isLoading
    {
      nombre, email, password, confirmPassword := "", "", "", "";
      error := None;
      isLoading := false;
    }

    /** `handleSubmit` with the server's answer (`None`: accepted; otherwise
        the error's message). The error is cleared first; failing checks send
        nothing; a request leaves loading off whatever its outcome. */
    method HandleSubmit(failure: Option<string>) returns (request: Option<RegisterRequest>, registered: bool)
      modifies this`error, this`isLoading
      ensures var check := CheckPasswords(password, confirmPassword);
        (request.None? <==> check.Some?) && (check.Some? ==> error == check && isLoading == old(isLoading))
      ensures request.Some? ==> request.value == RegisterRequest(nombre, email, password) && !isLoading
      ensures request.Some? ==> (registered <==> failure.None?)
      ensures request.Some? ==> error == if failure.Some? then Some(Backend(failure.value)) else None
      ensures request.None? ==> !registered
    {
      error := None;
      request, registered := None, false;
      if password != confirmPassword {
        error := Some(Mismatch);
        return;
      }
      if |password| < MinPassword {
        error := Some(TooShort);
        return;
      }
      isLoading := true;
      request := Some(RegisterRequest(nombre, email, password));
      if failure.Some? {
        error := Some(Backend(failure.value));
      } else {
        registered := true;
      }
      isLoading := false;
    }
  }
}
