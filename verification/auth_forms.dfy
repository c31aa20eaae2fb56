/** The checks the registration and login forms make before handing the
    fields to the authentication callbacks. Each refusal is the toast the
    form shows; nothing is passed on in that case. */
module AuthForms {
  import opened Wrappers

  const MinPasswordLength := 6

  /** Why a form was refused, in the order the checks run. */
  datatype FormError = MissingFields | PasswordMismatch | PasswordTooShort

  /** The toast title of each refusal. */
  function Title(e: FormError): string {
    match e
    case MissingFields => "Campos obrigatórios"
    case PasswordMismatch => "Senhas não coincidem"
    case PasswordTooShort => "Senha muito curta"
  }

  /** What `onRegister` receives. */
  datatype Registration = Registration(email: string, password: string, nickname: string)

  /** What `onLogin` receives. */
  datatype Login = Login(email: string, password: string)

  /** The registration form's `handleSubmit`: an empty field first, then
      the two passwords differing, then a password shorter than six
      characters; otherwise the three fields go to `onRegister` as typed. */
  function SubmitRegistration(email: string, password: string, confirmPassword: string, nickname: string)
    : (r: Result<Registration, FormError>)
    ensures r.Success? <==>
              email != "" && password != "" && confirmPassword != "" && nickname != ""
              && password == confirmPassword && |password| >= MinPasswordLength
    ensures r.Success? ==> r.value == Registration(email, password, nickname)
    ensures (email == "" || password == "" || nickname == "" || confirmPassword == "") <==> r == Failure(MissingFields)
  {
    if email == "" || password == "" || nickname == "" || confirmPassword == "" then Failure(MissingFields)
    else if password != confirmPassword then Failure(PasswordMismatch)
    else if |password| < MinPasswordLength then Failure(PasswordTooShort)
    else Success(Registration(email, password, nickname))
  }

  /** The checks are ordered: a missing field is reported whatever else is
      wrong, and a mismatch is reported before the length. */
  lemma RegistrationCheckOrder(email: string, password: string, confirmPassword: string, nickname: string)
    ensures var r := SubmitRegistration(email, password, confirmPassword, nickname);
            && (r == Failure(PasswordMismatch) <==>
                  email != "" && password != "" && confirmPassword != "" && nickname != ""
                  && password != confirmPassword)
            && (r == Failure(PasswordTooShort) <==>
                  email != "" && password != "" && nickname != ""
                  && password == confirmPassword && |password| < MinPasswordLength)
  {
  }

  /** Six characters are enough; five are not. */
  lemma PasswordLengthBoundary(email: string, nickname: string)
    requires email != "" && nickname != ""
    ensures SubmitRegistration(email, "123456", "123456", nickname) == Success(Registration(email, "123456", nickname))
    ensures SubmitRegistration(email, "12345", "12345", nickname) == Failure(PasswordTooShort)
  {
  }

  /** The login form's `handleSubmit`: both fields must be filled; nothing
      else is checked. */
  function SubmitLogin(email: string, password: string): (r: Result<Login, FormError>)
    ensures r.Success? <==> email != "" && password != ""
    ensures r.Success? ==> r.value == Login(email, password)
    ensures r.Failure? ==> r.error == MissingFields
  {
    if email == "" || password == "" then Failure(MissingFields)
    else Success(Login(email, password))
  }

  /** Every email and password that registration accepts, login accepts
      too, but login also takes passwords registration would refuse. */
  lemma LoginIsLaxer(email: string, password: string, nickname: string)
    ensures SubmitRegistration(email, password, password, nickname).Success? ==>
              SubmitLogin(email, password) == Success(Login(email, password))
    ensures email != "" ==> SubmitLogin(email, "1") == Success(Login(email, "1"))
                            && SubmitRegistration(email, "1", "1", "x") == Failure(PasswordTooShort)
  {
  }
}
