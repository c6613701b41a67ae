/** POST handler of app/api/auth/login/route.ts: look the user up by email,
    compare the password with the stored hash (`compare` stands for the hash
    library's check), and sign a session token. It only reads the users. */
module Login {
  import opened Base
  import opened Users

  datatype LoginResponse = InvalidEmail | InvalidPassword | LoggedIn(token: string) {
    function Status(): int {
      if LoggedIn? then 200 else 401
    }
  }

  function Login(users: seq<User>, email: string, password: string,
                 compare: (string, string) -> bool, sign: SessionClaims -> string): (r: LoginResponse)
    ensures r == InvalidEmail <==> forall u :: u in users ==> u.email != email
    ensures r == InvalidPassword <==>
      FindByEmail(users, email).Some? && !compare(password, FindByEmail(users, email).value.password)
    ensures r.LoggedIn? ==>
      FindByEmail(users, email).Some? &&
      compare(password, FindByEmail(users, email).value.password) &&
      r.token == sign(SessionClaims(FindByEmail(users, email).value.id, email))
  {
    match FindByEmail(users, email)
    case None => InvalidEmail
    case Some(user) =>
      if !compare(password, user.password) then InvalidPassword
      else LoggedIn(sign(SessionClaims(user.id, user.email)))
  }

  /** `findOne` on a collection grown at the end finds an earlier match
      first, and the new user when there is none. */
  lemma {:induction false} FindAfterAppend(users: seq<User>, u: User, email: string)
    ensures FindByEmail(users + [u], email) ==
      if FindByEmail(users, email).Some? then FindByEmail(users, email)
      else if u.email == email then Some(u) else None
  {
    if users != [] {
      assert (users + [u])[1..] == users[1..] + [u];
      FindAfterAppend(users[1..], u, email);
    }
  }

  /** A user just registered can log in with the same password, provided the
      hash check accepts a password against its own hash; the token carries
      that user's id and email. */
  lemma LoginAfterRegister(users: seq<User>, newUser: User, password: string,
                           hash: string -> string, compare: (string, string) -> bool,
                           sign: SessionClaims -> string)
    requires FindByEmail(users, newUser.email).None?
    requires newUser.password == hash(password)
    requires compare(password, hash(password))
    ensures Login(users + [newUser], newUser.email, password, compare, sign) ==
            LoggedIn(sign(SessionClaims(newUser.id, newUser.email)))
  {
    FindAfterAppend(users, newUser, newUser.email);
  }
}
