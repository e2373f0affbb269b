/** The response shapes of the authentication endpoints and the demo login,
    which needs no stored user. Tokens are not part of the model. */
module Auth {
  import opened Common

  /** A login or registration response: the HTTP status with either the
      account fields or an error text. */
  datatype AuthResponse =
    | Granted(status: int, username: string, role: string, email: string, message: string)
    | Refused(status: int, error: string)

  datatype RegisterRequest = RegisterRequest(
    username: Option<string>,
    email: Option<string>,
    password: Option<string>)

  const MissingFields := "Username, email, and password are required"
  const UsernameExists := "Username already exists"
  const EmailExists := "Email already exists"
  const BadCredentials := "Invalid username or password"

  /** The demo login's answer, before the token is attached. */
  datatype DemoResponse =
    | DemoGranted(username: string, role: string, message: string)
    | DemoRefused(status: int, error: string)

  /** The account type "admin" logs in as the ADMIN demo account, "user" as
      the USER one; anything else, a missing type included, is a 400. */
  function DemoLogin(accountType: Option<string>): (r: DemoResponse)
    ensures r.DemoGranted? <==> accountType == Some("admin") || accountType == Some("user")
    ensures accountType == Some("admin") ==> r.role == "ADMIN" && r.username == "admin"
    ensures accountType == Some("user") ==> r.role == "USER" && r.username == "user"
    ensures r.DemoRefused? ==> r.status == 400
  {
    if accountType == Some("admin") then DemoGranted("admin", "ADMIN", "Demo admin login successful")
    else if accountType == Some("user") then DemoGranted("user", "USER", "Demo user login successful")
    else DemoRefused(400, "Invalid demo account type")
  }
}
