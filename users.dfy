/** The user collection that registration writes and login reads: a user
    record, the claims a session token carries, and the lookup
    `User.findOne({ email })`. The stored password is the one-way hash. */
module Users {
  import opened Base

  datatype User = User(id: Id, username: string, email: string, password: string)

  /** The claims both auth routes sign into a session token. */
  datatype SessionClaims = SessionClaims(userId: Id, email: string)

  predicate EmailsUnique(users: seq<User>) {
    forall i, j :: 0 <= i < j < |users| ==> users[i].email != users[j].email
  }

  /** `User.findOne({ email })`: the first user with that email. */
  function FindByEmail(users: seq<User>, email: string): (r: Option<User>)
    ensures r.None? <==> forall u :: u in users ==> u.email != email
    ensures r.Some? ==> r.value in users && r.value.email == email
    ensures EmailsUnique(users) ==> forall u :: u in users && u.email == email ==> r == Some(u)
  {
    if users == [] then None
    else if users[0].email == email then
      assert EmailsUnique(users) ==> forall u :: u in users[1..] ==> u.email != email;
      Some(users[0])
    else
      assert forall u :: u in users <==> u == users[0] || u in users[1..];
      FindByEmail(users[1..], email)
  }

  /** Adding a user whose email is not yet taken keeps emails unique. */
  lemma AddFreshEmail(users: seq<User>, u: User)
    requires EmailsUnique(users)
    requires FindByEmail(users, u.email).None?
    ensures EmailsUnique(users + [u])
  {
    var added := users + [u];
    forall i, j | 0 <= i < j < |added| ensures added[i].email != added[j].email {
      if j == |users| {
        assert added[i] in users;
      }
    }
  }

  /** The user collection. `nextId` stands for the database's generator of
      fresh ObjectIds. */
  class UserStore {
    var users: seq<User>
    var nextId: Id

    ghost predicate Valid()
      reads this
    {
      EmailsUnique(users) && forall u :: u in users ==> u.id < nextId
    }

    constructor ()
      ensures Valid() && users == []
    {
      users := [];
      nextId := 0;
    }
  }
}
