/** The user collection that campus-connect-backend-main/controllers/authController.js
    and campus-connect-backend-main/utils/authMiddleware.js read and write:
    accounts in insertion order under increasing ids, one account per
    address. The User schema file itself is not part of this model. */
module Users {
  import opened Strings

  /** A stored account; `password` holds the hash, never the plain text. */
  datatype User = User(id: nat, name: string, email: string, password: string, role: string)

  /** The `user` object of an answer, and what `protect` loads: the account
      without its password. */
  datatype Profile = Profile(id: nat, name: string, email: string, role: string)

  function ProfileOf(u: User): Profile {
    Profile(u.id, u.name, u.email, u.role)
  }

  /** `User.findOne({ email: key })`: the position of the first account
      stored under the key. */
  function FindByEmail(users: seq<User>, key: string): (r: Option<nat>)
    ensures r.Some? ==> r.value < |users| && users[r.value].email == key
    ensures r.None? <==> forall i :: 0 <= i < |users| ==> users[i].email != key
  {
    if users == [] then None
    else if users[0].email == key then Some(0)
    else
      var rest := FindByEmail(users[1..], key);
      assert forall i :: 1 <= i < |users| ==> users[i] == users[1..][i - 1];
      if rest.Some? then Some(rest.value + 1) else None
  }

  /** An account stored under a free address is the one found under it. */
  lemma {:induction false} FindAppended(users: seq<User>, u: User)
    requires AddressFree(users, u.email)
    ensures FindByEmail(users + [u], u.email) == Some(|users|)
    decreases |users|
  {
    var after := users + [u];
    if users != [] {
      assert after[0] == users[0];
      assert after[1..] == users[1..] + [u];
      FindAppended(users[1..], u);
    }
  }

  /** `User.findById(id)`: the position of the account with the id. */
  function FindById(users: seq<User>, id: nat): (r: Option<nat>)
    ensures r.Some? ==> r.value < |users| && users[r.value].id == id
    ensures r.None? <==> forall i :: 0 <= i < |users| ==> users[i].id != id
  {
    if users == [] then None
    else if users[0].id == id then Some(0)
    else
      var rest := FindById(users[1..], id);
      assert forall i :: 1 <= i < |users| ==> users[i] == users[1..][i - 1];
      if rest.Some? then Some(rest.value + 1) else None
  }

  /** Ids below the next one and increasing, and one account per address. */
  predicate AccountsValid(users: seq<User>, nextId: nat) {
    (forall i :: 0 <= i < |users| ==> users[i].id < nextId)
    && (forall i, j :: 0 <= i < j < |users| ==> users[i].id < users[j].id)
    && EmailsDistinct(users)
  }

  predicate EmailsDistinct(users: seq<User>) {
    forall i, j :: 0 <= i < j < |users| ==> users[i].email != users[j].email
  }

  /** No stored account has the key. */
  predicate AddressFree(users: seq<User>, key: string) {
    forall i :: 0 <= i < |users| ==> users[i].email != key
  }

  /** Storing an account under a free address and the next id keeps the
      collection valid. */
  lemma AppendAccount(users: seq<User>, nextId: nat, u: User)
    requires AccountsValid(users, nextId)
    requires AddressFree(users, u.email) && u.id == nextId
    ensures AccountsValid(users + [u], nextId + 1)
  {
    var all := users + [u];
    forall i | 0 <= i < |all|
      ensures all[i].id < nextId + 1
    {
      if i < |users| { assert all[i] == users[i]; }
    }
    forall i, j | 0 <= i < j < |all|
      ensures all[i].id < all[j].id && all[i].email != all[j].email
    {
      assert all[i] == users[i];
      if j < |users| { assert all[j] == users[j]; }
    }
  }

  /** The user collection, with the id the next account gets. */
  class UserStore {
    var users: seq<User>
    var nextId: nat

    ghost predicate Valid()
      reads this
    {
      AccountsValid(users, nextId)
    }

    constructor()
      ensures users == [] && nextId == 0 && Valid()
    {
      users := [];
      nextId := 0;
    }

    /** `User.create` of an account under a free address: it is stored
        last, under the next id. */
    method Insert(u: User) returns (stored: User)
      requires Valid() && AddressFree(users, u.email)
      modifies this
      ensures stored == u.(id := old(nextId))
      ensures users == old(users) + [stored] && nextId == old(nextId) + 1
      ensures Valid()
    {
      stored := u.(id := nextId);
      AppendAccount(users, nextId, stored);
      users := users + [stored];
      nextId := nextId + 1;
    }
  }
}
