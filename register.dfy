/** POST handler of app/api/auth/register/route.ts: the three fields must be
    present and non-empty, the email must be new; then the user is stored
    with the hashed password and a session token is signed for it. `hash`
    stands for the salted one-way hash and `sign` for the token signer. */
module Register {
  import opened Base
  import opened Users

  datatype RegisterResponse = MissingFields | UserExists | Registered(token: string) {
    function Status(): int {
      match this
      case MissingFields => 400
      case UserExists => 400
      case Registered(_) => 201
    }
  }

  /** A JSON field that is present and truthy. */
  predicate Present(field: Option<string>) {
    field.Some? && field.value != ""
  }

  method Register(store: UserStore, username: Option<string>, email: Option<string>,
                  password: Option<string>, hash: string -> string,
                  sign: SessionClaims -> string) returns (r: RegisterResponse)
    requires store.Valid()
    modifies store
    ensures store.Valid()
    ensures r == MissingFields <==> !(Present(username) && Present(email) && Present(password))
    ensures Present(username) && Present(email) && Present(password) ==>
      (r == UserExists <==> FindByEmail(old(store.users), email.value).Some?)
    ensures !r.Registered? ==> store.users == old(store.users) && store.nextId == old(store.nextId)
    ensures r.Registered? ==>
      Present(username) && Present(email) && Present(password) &&
      (forall u :: u in old(store.users) ==> u.id != old(store.nextId)) &&
      store.users == old(store.users) +
        [User(old(store.nextId), username.value, email.value, hash(password.value))] &&
      r.token == sign(SessionClaims(old(store.nextId), email.value))
  {
    if !Present(username) || !Present(email) || !Present(password) {
      return MissingFields;
    }
    if FindByEmail(store.users, email.value).Some? {
      return UserExists;
    }
    var user := User(store.nextId, username.value, email.value, hash(password.value));
    AddFreshEmail(store.users, user);
    store.users := store.users + [user];
    store.nextId := store.nextId + 1;
    r := Registered(sign(SessionClaims(user.id, user.email)));
  }
}
