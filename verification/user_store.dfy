/** The `users` table as a map from user id to row, with the five queries of
    the credential store. */
module UserStore {

  import opened Base
  import opened Models

  type Users = map<Uuid, User>

  /** Every row sits under its own id. */
  predicate WellKeyed(u: Users)
  {
    forall id :: id in u ==> u[id].id == id
  }

  /** No two accounts share an e-mail address. The schema is not part of this
      model; registration keeps this. */
  predicate EmailsUnique(u: Users)
  {
    forall a, b :: a in u && b in u && a != b ==> u[a].email != u[b].email
  }

  /** The columns the caller supplies to an insert. */
  datatype NewUser = NewUser(username: string, email: string, passwordHash: string)

  datatype Created = Created(user: User, users: Users)

  /** A primary-key violation on insert. */
  datatype InsertError = DuplicateKey

  /** Inserts the user under the database-generated `newId`; the returned row
      carries the generated id and timestamps. */
  function Create(u: Users, nu: NewUser, newId: Uuid, now: Time): (r: Result<Created, InsertError>)
    ensures r.Err? <==> newId in u
    ensures r.Ok? ==>
      var user := r.value.user;
      && user.id == newId
      && user.username == nu.username && user.email == nu.email && user.passwordHash == nu.passwordHash
      && user.createdAt == now && user.updatedAt == now
    ensures r.Ok? ==>
      && r.value.users.Keys == u.Keys + {newId}
      && r.value.users[newId] == r.value.user
      && forall id :: id in u ==> r.value.users[id] == u[id]
    ensures r.Ok? && WellKeyed(u) ==> WellKeyed(r.value.users)
  {
    if newId in u then Err(DuplicateKey)
    else
      var user := User(newId, nu.username, nu.email, nu.passwordHash, now, now);
      Ok(Created(user, u[newId := user]))
  }

  function WithEmail(u: Users, email: string): set<Uuid>
  {
    set id | id in u && u[id].email == email
  }

  /** The account whose stored e-mail is exactly `email` (no case folding here),
      or "none" when there is none. Of several matches the least id wins. */
  function FindByEmail(u: Users, email: string): (r: Option<User>)
    ensures r.None? <==> forall id :: id in u ==> u[id].email != email
    ensures r.Some? ==> r.value in u.Values && r.value.email == email
    ensures r.Some? && WellKeyed(u) ==> r.value.id in u && u[r.value.id] == r.value
  {
    var ids := WithEmail(u, email);
    if ids == {} then
      assert forall id :: id in u && u[id].email == email ==> id in ids;
      None
    else Some(u[Least(ids)])
  }

  /** The account with id `id`, or "none" when absent. */
  function FindById(u: Users, id: Uuid): (r: Option<User>)
    ensures r.None? <==> id !in u
    ensures r.Some? ==> r.value == u[id]
    ensures r.Some? && WellKeyed(u) ==> r.value.id == id
  {
    if id in u then Some(u[id]) else None
  }

  /** `UPDATE users … WHERE id = user.id`: overwrites username, e-mail and hash
      and stamps the row with `now`. An absent id is not an error: the table
      comes back unchanged. */
  function Update(u: Users, user: User, now: Time): (r: Users)
    ensures user.id !in u ==> r == u
    ensures r.Keys == u.Keys
    ensures user.id in u ==>
      var row := r[user.id];
      && row.username == user.username && row.email == user.email
      && row.passwordHash == user.passwordHash && row.updatedAt == now
      && row.id == u[user.id].id && row.createdAt == u[user.id].createdAt
    ensures forall id :: id in u && id != user.id ==> r[id] == u[id]
  {
    if user.id in u then
      u[user.id := u[user.id].(username := user.username, email := user.email,
                               passwordHash := user.passwordHash, updatedAt := now)]
    else u
  }

  /** `DELETE FROM users WHERE id = id`: removes exactly that account; an absent
      id is not an error and leaves the table unchanged. */
  function Delete(u: Users, id: Uuid): (r: Users)
    ensures r.Keys == u.Keys - {id}
    ensures forall k :: k in r ==> r[k] == u[k]
    ensures id !in u ==> r == u
  {
    u - {id}
  }
  /** A new account whose address no one else holds is what a lookup by that
      address finds, and its id finds it too. */
  lemma CreateThenFind(u: Users, nu: NewUser, newId: Uuid, now: Time)
    requires newId !in u
    requires forall id :: id in u ==> u[id].email != nu.email
    ensures var c := Create(u, nu, newId, now).value;
      && FindByEmail(c.users, nu.email) == Some(c.user)
      && FindById(c.users, newId) == Some(c.user)
  {
    var c := Create(u, nu, newId, now).value;
    assert WithEmail(c.users, nu.email) == {newId};
  }

  /** After deletion the id finds nothing, and neither does the deleted
      account's address when addresses are unique. */
  lemma DeleteThenFind(u: Users, id: Uuid)
    requires id in u && EmailsUnique(u)
    ensures FindById(Delete(u, id), id).None?
    ensures FindByEmail(Delete(u, id), u[id].email).None?
  {
    var t := Delete(u, id);
    forall k | k in t
      ensures t[k].email != u[id].email
    {
      assert k != id;
    }
  }

  /** Repeating an update at the same instant changes nothing more. */
  lemma UpdateIdempotent(u: Users, user: User, now: Time)
    ensures Update(Update(u, user, now), user, now) == Update(u, user, now)
  {
    var t := Update(u, user, now);
    if user.id in u {
      assert t[user.id := t[user.id].(username := user.username, email := user.email,
                                      passwordHash := user.passwordHash, updatedAt := now)] == t;
    }
  }
}
