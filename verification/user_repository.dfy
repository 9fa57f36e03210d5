/** The fixed user directory (backend/src/repositories/userRepository.js).

    `sha256` (Node's crypto, hex digest) is not modelled: it is the parameter
    `sha256` of type `Hash`, so equal passwords hash equally by construction
    and nothing else is assumed of it.
 */
module UserRepository {
  import opened Outcomes
  import opened UserEntity
  import Text
  import Seqs

  type Hash = string -> string

  /** The seeded administrator, whose password is "heslo". */
  function Admin(sha256: Hash): User
  {
    NewUser("1", "admin", "Administrator", Some(["USER", "ADMIN"]), sha256("heslo"))
  }

  /** `USERS`: exactly one user, the administrator. */
  function Users(sha256: Hash): (users: seq<User>)
    ensures |users| == 1
    ensures users[0].id == "1" && users[0].username == "admin" && users[0].name == "Administrator"
    ensures users[0].roles == ["USER", "ADMIN"] && users[0].passwordHash == sha256("heslo")
  {
    [Admin(sha256)]
  }

  /** Case-insensitive username equality, `a.toLowerCase() === b.toLowerCase()`. */
  predicate SameName(a: string, b: string)
  {
    Text.ToLower(a) == Text.ToLower(b)
  }

  /** `findByUsername(username)` over a directory: the first user whose name
      matches ignoring case, None standing for `null`. */
  function FindByUsernameIn(users: seq<User>, username: string): (r: Option<User>)
    ensures r.None? <==> forall i :: 0 <= i < |users| ==> !SameName(users[i].username, username)
    ensures forall i :: Seqs.IsFirst(users, (u: User) => SameName(u.username, username), i) ==> r == Some(users[i])
  {
    Seqs.Find(users, (u: User) => SameName(u.username, username))
  }

  /** `findById(id)` over a directory: the first user with exactly that id. */
  function FindByIdIn(users: seq<User>, id: string): (r: Option<User>)
    ensures r.None? <==> forall i :: 0 <= i < |users| ==> users[i].id != id
    ensures forall i :: Seqs.IsFirst(users, (u: User) => u.id == id, i) ==> r == Some(users[i])
  {
    Seqs.Find(users, (u: User) => u.id == id)
  }

  /** `findByUsername` on the seeded directory: a user of the directory
      whose name matches ignoring case, None when no name matches. */
  function FindByUsername(sha256: Hash, username: string): (r: Option<User>)
    ensures r.Some? ==> r.value in Users(sha256) && SameName(r.value.username, username)
    ensures r.None? <==> forall u :: u in Users(sha256) ==> !SameName(u.username, username)
  {
    FindByUsernameIn(Users(sha256), username)
  }

  /** `findById` on the seeded directory: a user of the directory with
      exactly that id, None when no user has it. */
  function FindById(sha256: Hash, id: string): (r: Option<User>)
    ensures r.Some? ==> r.value in Users(sha256) && r.value.id == id
    ensures r.None? <==> forall u :: u in Users(sha256) ==> u.id != id
  {
    FindByIdIn(Users(sha256), id)
  }

  /** The administrator is found under any capitalisation of "admin" and
      under no other name. */
  lemma FindAdminByName(sha256: Hash, username: string)
    ensures FindByUsername(sha256, username) == (if Text.ToLower(username) == "admin" then Some(Admin(sha256)) else None)
  {
    var users := Users(sha256);
    assert Text.ToLower("admin") == "admin";
    if Text.ToLower(username) == "admin" {
      assert Seqs.IsFirst(users, (u: User) => SameName(u.username, username), 0);
    }
  }

  /** The administrator is found under id "1" and no user under any other id. */
  lemma FindAdminById(sha256: Hash, id: string)
    ensures FindById(sha256, id) == (if id == "1" then Some(Admin(sha256)) else None)
  {
    var users := Users(sha256);
    if id == "1" {
      assert Seqs.IsFirst(users, (u: User) => u.id == id, 0);
    }
  }
}
