/** The user table and the service that reads and writes it. */
module Users {
  import opened Common

  /** One row of the user table. */
  datatype User = User(id: string, email: string, password: string, confirmed: bool)

  const EmailTakenMessage := "User with this email already exists"
  const NotFoundOrConfirmedMessage := "User not found or already confirmed"

  /** Every row is stored under its own primary key. */
  ghost predicate KeysMatch(users: map<string, User>) {
    forall id :: id in users ==> users[id].id == id
  }

  /** The unique constraint on the email column. */
  ghost predicate EmailsUnique(users: map<string, User>) {
    forall a, b :: a in users && b in users && users[a].email == users[b].email ==> a == b
  }

  /** Some row carries this email. */
  predicate EmailInUse(users: map<string, User>, email: string) {
    exists id :: id in users && users[id].email == email
  }

  /** A row under another key than `id` carries this email: saving `id` with it would break the unique constraint. */
  predicate EmailTakenByOther(users: map<string, User>, email: string, id: string) {
    exists other :: other in users && other != id && users[other].email == email
  }

  /** The user exists and has confirmed their email: the gate for every work operation. */
  predicate Eligible(users: map<string, User>, id: string) {
    id in users && users[id].confirmed
  }

  /** The table after the row under `id` has its confirmed flag set. */
  function WithConfirmed(users: map<string, User>, id: string): (r: map<string, User>)
    requires id in users
    ensures r.Keys == users.Keys
    ensures Eligible(r, id)
    ensures r[id] == users[id].(confirmed := true)
    ensures forall other :: other in users && other != id ==> r[other] == users[other]
  {
    users[id := users[id].(confirmed := true)]
  }

  /** Confirming twice leaves the table as confirming once. */
  lemma WithConfirmedIdempotent(users: map<string, User>, id: string)
    requires id in users
    ensures WithConfirmed(WithConfirmed(users, id), id) == WithConfirmed(users, id)
  {
  }

  class UsersService {
    /** The user table, keyed by id. */
    var users: map<string, User>

    ghost predicate Valid()
      reads this
    {
      KeysMatch(users) && EmailsUnique(users)
    }

    constructor ()
      ensures Valid() && users == map[]
    {
      users := map[];
    }

    /** The user whose email is `email`, if any; the unique constraint makes it unique. */
    function FindByEmail(email: string): (r: Option<User>)
      requires Valid()
      reads this
      ensures r.Some? <==> EmailInUse(users, email)
      ensures r.Some? ==> r.value.email == email && r.value.id in users && users[r.value.id] == r.value
    {
      if EmailInUse(users, email) then
        var id :| id in users && users[id].email == email;
        Some(users[id])
      else
        None
    }

    /** The user stored under `id`, if any. */
    function FindById(id: string): (r: Option<User>)
      reads this
      ensures r.Some? <==> id in users
      ensures r.Some? ==> r.value == users[id]
      ensures r.Some? && Valid() ==> r.value.id == id
    {
      if id in users then Some(users[id]) else None
    }

    /**
     * Inserts an unconfirmed user, refusing an email that is already taken.
     * The row is saved under its primary key, so an existing row with the
     * same id is overwritten.
     */
    method CreateUser(id: string, email: string, password: string) returns (r: Result<User>)
      requires Valid()
      modifies this
      ensures Valid()
      ensures EmailInUse(old(users), email) ==>
        r == Failure(Conflict(EmailTakenMessage)) && users == old(users)
      ensures !EmailInUse(old(users), email) ==>
        r == Ok(User(id, email, password, false)) &&
        users == old(users)[id := User(id, email, password, false)]
      ensures r.Ok? ==> !Eligible(users, id) && FindById(id) == Some(r.value)
    {
      var existing := FindByEmail(email);
      if existing.Some? {
        return Failure(Conflict(EmailTakenMessage));
      }
      var newUser := User(id, email, password, false);
      users := users[id := newUser];
      r := Ok(newUser);
    }

    /** Confirms a user that exists and is not yet confirmed; anything else is NotFound. */
    method ConfirmUser(id: string) returns (r: Result<User>)
      requires Valid()
      modifies this
      ensures Valid()
      ensures (id !in old(users) || old(users)[id].confirmed) ==>
        r == Failure(NotFound(NotFoundOrConfirmedMessage)) && users == old(users)
      ensures id in old(users) && !old(users)[id].confirmed ==>
        r == Ok(old(users)[id].(confirmed := true)) && users == WithConfirmed(old(users), id)
    {
      var found := FindById(id);
      if found.None? || found.value.confirmed {
        return Failure(NotFound(NotFoundOrConfirmedMessage));
      }
      var user := found.value.(confirmed := true);
      users := users[id := user];
      r := Ok(user);
    }

    /** Stores `user` under its id (insert or update); the unique email constraint may refuse it. */
    method SaveUser(user: User) returns (r: Result<User>)
      requires Valid()
      modifies this
      ensures Valid()
      ensures EmailTakenByOther(old(users), user.email, user.id) ==>
        r == Failure(QueryFailed) && users == old(users)
      ensures !EmailTakenByOther(old(users), user.email, user.id) ==>
        r == Ok(user) && users == old(users)[user.id := user]
    {
      if EmailTakenByOther(users, user.email, user.id) {
        return Failure(QueryFailed);
      }
      users := users[user.id := user];
      r := Ok(user);
    }
  }
}
