/** The `/login` decision: a fixed pair of credentials, the email checked
    before the password. */
module Auth {
  import opened Outcomes

  /** The body of a login request. */
  datatype LoginRequest = LoginRequest(email: string, password: string)

  const AdminEmail: string := "admin@admin.com"
  const AdminPassword: string := "admin123"

  /** `login(body)`: "Good!" for the admin pair, 400 "Email not found" for
      any other email, 401 "Invalid Password" for the admin email with any
      other password. */
  function Login(body: LoginRequest): (r: Result<string>)
    ensures r.Ok? <==> body.email == AdminEmail && body.password == AdminPassword
    ensures r.Ok? ==> r.value == "Good!"
    ensures body.email != AdminEmail ==> r == Err(HttpError(BadRequest, "Email not found"))
    ensures body.email == AdminEmail && body.password != AdminPassword ==>
      r == Err(HttpError(Unauthorized, "Invalid Password"))
  {
    if body.email != AdminEmail then Err(HttpError(BadRequest, "Email not found"))
    else if body.password != AdminPassword then Err(HttpError(Unauthorized, "Invalid Password"))
    else Ok("Good!")
  }

  /** The password is never looked at unless the email is the admin's: for
      any other email the answer is the same whatever the password. */
  lemma EmailCheckedFirst(email: string, p1: string, p2: string)
    requires email != AdminEmail
    ensures Login(LoginRequest(email, p1)) == Login(LoginRequest(email, p2))
    ensures Login(LoginRequest(email, p1)).error.status == BadRequest
  {
  }

  /** The three outcomes the login tests look for. */
  lemma LoginExamples()
    ensures Login(LoginRequest("admin@admin.com", "admin123")) == Ok("Good!")
    ensures Login(LoginRequest("wrong@email.com", "admin123")) == Err(HttpError(BadRequest, "Email not found"))
    ensures Login(LoginRequest("admin@admin.com", "wrongpassword")) == Err(HttpError(Unauthorized, "Invalid Password"))
    ensures Login(LoginRequest("wrong@email.com", "wrongpassword")).error.status == BadRequest
  {
    assert "wrong@email.com"[0] != AdminEmail[0];
    assert |"wrongpassword"| != |AdminPassword|;
  }
}
