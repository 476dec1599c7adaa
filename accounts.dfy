/** Users, roles and the permission flags derived from the current user;
    login lookup and the user-administration list edits. */
module Accounts {
  import opened Wrappers
  import opened Strings
  import opened Seqs

  datatype Role = SuperAdmin | Editor | Viewer

  datatype User = User(username: string, password: string, role: Role)

  /** The built-in accounts used when no saved list exists. */
  const DefaultUsers: seq<User> := [
    User("admin", "password", SuperAdmin),
    User("staff", "123", Editor),
    User("guest", "guest", Viewer)
  ]

  /** The protected account name. */
  const AdminName: string := "admin"

  /** `currentUser && ['superadmin', 'editor'].includes(currentUser.role)`. */
  predicate CanEdit(current: Option<User>)
  {
    current.Some? && current.value.role in [SuperAdmin, Editor]
  }

  /** `currentUser && currentUser.role === 'superadmin'`. */
  predicate CanManageUsers(current: Option<User>)
  {
    current.Some? && current.value.role == SuperAdmin
  }

  /** Editing is allowed exactly to signed-in super admins and editors, and
      managing users and columns only to super admins, who may also edit. */
  lemma Permissions(current: Option<User>)
    ensures CanEdit(current) <==> current.Some? && current.value.role != Viewer
    ensures CanManageUsers(current) ==> CanEdit(current)
    ensures current.None? ==> !CanEdit(current) && !CanManageUsers(current)
  {
    if current.Some? && current.value.role != Viewer {
      assert current.value.role == SuperAdmin || current.value.role == Editor;
    }
  }

  // ---------------------------------------------------------------------
  // login

  /** The login test: user name compared case-insensitively, password
      exactly. */
  predicate Matches(u: User, name: string, password: string)
  {
    Lower(u.username) == Lower(name) && u.password == password
  }

  /** `users.find(u => matches)`: the first user matching the credentials,
      None when there is none. */
  function FindLogin(users: seq<User>, name: string, password: string): (r: Option<User>)
    ensures r.None? <==> forall u :: u in users ==> !Matches(u, name, password)
    ensures r.Some? ==> exists i :: (0 <= i < |users| && users[i] == r.value
                                     && Matches(users[i], name, password)
                                     && forall j :: 0 <= j < i ==> !Matches(users[j], name, password))
  {
    if users == [] then None
    else if Matches(users[0], name, password) then Some(users[0])
    else
      var r := FindLogin(users[1..], name, password);
      assert forall u :: u in users ==> u == users[0] || u in users[1..];
      if r.Some? then
        var i :| 0 <= i < |users[1..]| && users[1..][i] == r.value
          && Matches(users[1..][i], name, password)
          && forall j :: 0 <= j < i ==> !Matches(users[1..][j], name, password);
        assert users[i + 1] == r.value;
        assert forall j :: 1 <= j < i + 1 ==> users[j] == users[1..][j - 1];
        r
      else r
  }

  /** The default admin signs in whatever the case of the name typed. */
  lemma AdminLoginIgnoresCase()
    ensures FindLogin(DefaultUsers, "ADMIN", "password") == Some(DefaultUsers[0])
    ensures FindLogin(DefaultUsers, "admin", "Password") == None
  {
    assert Lower("ADMIN") == "admin";
    assert Lower("admin") == "admin";
    assert Lower("staff") == "staff";
    assert Lower("guest") == "guest";
  }

  // ---------------------------------------------------------------------
  // user administration

  /** `users.some(u => u.username === name)`. */
  predicate HasUser(users: seq<User>, name: string)
  {
    exists i :: 0 <= i < |users| && users[i].username == name
  }

  /** No two users share a (case-sensitive) user name. */
  predicate UniqueNames(users: seq<User>)
  {
    forall i, j :: 0 <= i < j < |users| ==> users[i].username != users[j].username
  }

  /** The protected account exists and is a super admin. */
  predicate AdminIntact(users: seq<User>)
  {
    exists i :: 0 <= i < |users| && users[i].username == AdminName && users[i].role == SuperAdmin
  }

  /** `handleCreateUser`: refused when the name is taken, otherwise the user
      is appended. Names stay unique. */
  function CreateUser(users: seq<User>, u: User): (r: seq<User>)
    ensures HasUser(users, u.username) ==> r == users
    ensures !HasUser(users, u.username) ==> r == users + [u]
    ensures HasUser(r, u.username)
    ensures UniqueNames(users) ==> UniqueNames(r)
    ensures AdminIntact(users) ==> AdminIntact(r)
  {
    if HasUser(users, u.username) then users
    else
      var r := users + [u];
      assert r[|users|] == u;
      assert forall i :: 0 <= i < |users| ==> r[i] == users[i];
      r
  }

  /** The filter test of `handleDeleteUser`: a user with another name. */
  function OtherName(name: string): User -> bool
  {
    (u: User) => u.username != name
  }

  /** `handleDeleteUser`: `admin` cannot be deleted; otherwise every user
      with the name is removed and the others keep their order. */
  function DeleteUser(users: seq<User>, name: string): (r: seq<User>)
    ensures name == AdminName ==> r == users
    ensures name != AdminName ==> !HasUser(r, name)
    ensures forall u :: u in r <==> u in users && (name == AdminName || u.username != name)
    ensures AdminIntact(users) ==> AdminIntact(r)
    ensures UniqueNames(users) ==> UniqueNames(r)
  {
    if name == AdminName then users
    else
      var r := Filter(users, OtherName(name));
      assert UniqueNames(users) ==> UniqueNames(r) by {
        if UniqueNames(users) {
          var key := (u: User) => u.username;
          assert KeysDistinct(users, key);
          FilterKeepsKeysDistinct(users, key, OtherName(name));
          assert forall i, j :: 0 <= i < j < |r| ==> key(r[i]) != key(r[j]);
        }
      }
      assert !HasUser(r, name) by {
        forall i | 0 <= i < |r| ensures r[i].username != name { assert r[i] in r; }
      }
      assert AdminIntact(users) ==> AdminIntact(r) by {
        if AdminIntact(users) {
          var i :| 0 <= i < |users| && users[i].username == AdminName && users[i].role == SuperAdmin;
          assert users[i] in r;
          var j :| 0 <= j < |r| && r[j] == users[i];
        }
      }
      r
  }

  /** Deleting from a concatenation deletes from each part and keeps the
      parts in order; a single user stays exactly when it is `admin`'s
      request or has another name. So the remaining users keep their order
      and multiplicity. */
  lemma DeleteKeepsOrder(a: seq<User>, b: seq<User>, name: string)
    ensures DeleteUser(a + b, name) == DeleteUser(a, name) + DeleteUser(b, name)
    ensures DeleteUser([], name) == []
    ensures forall u :: DeleteUser([u], name) == if name != AdminName && u.username == name then [] else [u]
  {
    if name != AdminName {
      FilterConcat(a, b, OtherName(name));
      forall u ensures DeleteUser([u], name) == if u.username == name then [] else [u] {
        assert [u][1..] == [];
      }
    }
  }

  /** `handleUpdateRole`: demoting `admin` is refused; otherwise every user
      with the name gets the new role and nothing else changes. */
  function UpdateRole(users: seq<User>, name: string, role: Role): (r: seq<User>)
    ensures name == AdminName && role != SuperAdmin ==> r == users
    ensures |r| == |users|
    ensures forall i :: 0 <= i < |r| ==> r[i].username == users[i].username && r[i].password == users[i].password
    ensures forall i :: 0 <= i < |r| && users[i].username != name ==> r[i] == users[i]
    ensures !(name == AdminName && role != SuperAdmin) ==>
      forall i :: 0 <= i < |r| && users[i].username == name ==> r[i].role == role
    ensures AdminIntact(users) ==> AdminIntact(r)
    ensures UniqueNames(users) ==> UniqueNames(r)
  {
    if name == AdminName && role != SuperAdmin then users
    else
      var r := seq(|users|, i requires 0 <= i < |users| =>
        if users[i].username == name then users[i].(role := role) else users[i]);
      assert AdminIntact(users) ==> AdminIntact(r) by {
        if AdminIntact(users) {
          var i :| 0 <= i < |users| && users[i].username == AdminName && users[i].role == SuperAdmin;
          assert r[i].username == AdminName && r[i].role == SuperAdmin;
        }
      }
      r
  }
}
