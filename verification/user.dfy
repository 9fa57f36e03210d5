/** The user record (backend/src/entities/User.js) and its public projection,
    the only form in which a user ever leaves the server. */
module UserEntity {
  import opened Outcomes
  import opened Json

  datatype User = User(id: string, username: string, name: string, roles: seq<string>, passwordHash: string)

  /** `new User({ id, username, name, roles = [], passwordHash })`: every
      field stored as given, roles defaulting to none. */
  function NewUser(id: string, username: string, name: string, roles: Option<seq<string>>, passwordHash: string): (u: User)
    ensures u.id == id && u.username == username && u.name == name && u.passwordHash == passwordHash
    ensures roles.Some? ==> u.roles == roles.value
    ensures roles.None? ==> u.roles == []
  {
    User(id, username, name, roles.GetOr([]), passwordHash)
  }

  /** The property names of the public view. */
  const PublicKeys: set<string> := {"id", "username", "name", "roles"}

  /** `toPublicJSON()`: exactly id, username, name and roles, each equal to the
      user's own field; never the password hash. */
  function PublicView(u: User): (v: Obj)
    ensures v.Keys == PublicKeys
    ensures "passwordHash" !in v
    ensures v["id"] == JStr(u.id) && v["username"] == JStr(u.username) && v["name"] == JStr(u.name)
    ensures v["roles"] == Strings(u.roles)
  {
    map["id" := JStr(u.id), "username" := JStr(u.username), "name" := JStr(u.name), "roles" := Strings(u.roles)]
  }

  /** The public view reveals nothing about the password hash: users that
      differ only in their hash look the same. */
  lemma PublicViewIgnoresHash(u: User, hash: string)
    ensures PublicView(u.(passwordHash := hash)) == PublicView(u)
  {
  }

  /** ...and it does reveal every other field: equal views mean equal id,
      username, name and roles. */
  lemma PublicViewDeterminesFields(u1: User, u2: User)
    requires PublicView(u1) == PublicView(u2)
    ensures u1.(passwordHash := u2.passwordHash) == u2
  {
    assert PublicView(u1)["roles"] == PublicView(u2)["roles"];
    StringsInjective(u1.roles, u2.roles);
    assert PublicView(u1)["id"] == PublicView(u2)["id"];
    assert PublicView(u1)["username"] == PublicView(u2)["username"];
    assert PublicView(u1)["name"] == PublicView(u2)["name"];
  }
}
