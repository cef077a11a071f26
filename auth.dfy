/** Registration, email confirmation, login and user validation over the user table. */
module Auth {
  import opened Common
  import opened Users

  const InvalidTokenMessage := "Invalid token"
  const InvalidCredentialsMessage := "Invalid email or password"
  const UserNotFoundMessage := "User not found"
  const ConfirmLinkPrefix := "http://localhost:3000/auth/confirm?token="

  /** What registration answers with: the email and the link that confirms it. */
  datatype Registration = Registration(email: string, confirmLink: string)

  /** What email confirmation answers with. */
  datatype Confirmation = Confirmation(success: bool)

  /** The claims a login token is signed over. */
  datatype Payload = Payload(id: string, email: string)

  /** The confirmation link for a user: the token it carries is the user's id. */
  function ConfirmLink(id: string): (link: string)
    ensures |link| == |ConfirmLinkPrefix| + |id|
  {
    ConfirmLinkPrefix + id
  }

  /** The token a confirmation link carries, or None when it is not such a link. */
  function TokenOf(link: string): (token: Option<string>)
    ensures token.Some? ==> link == ConfirmLinkPrefix + token.value
  {
    if |ConfirmLinkPrefix| <= |link| && link[..|ConfirmLinkPrefix|] == ConfirmLinkPrefix
    then Some(link[|ConfirmLinkPrefix|..])
    else None
  }

  /** The token in a registration's link is the id of the user it registered. */
  lemma TokenOfConfirmLink(id: string)
    ensures TokenOf(ConfirmLink(id)) == Some(id)
  {
    var link := ConfirmLink(id);
    assert link[..|ConfirmLinkPrefix|] == ConfirmLinkPrefix;
    assert link[|ConfirmLinkPrefix|..] == id;
  }

  /** The stored credentials admit this login: the user exists, is confirmed and the passwords are equal. */
  predicate CredentialsMatch(users: map<string, User>, email: string, password: string) {
    exists id :: id in users && users[id].email == email && users[id].confirmed && users[id].password == password
  }

  class AuthService {
    const usersService: UsersService
    /** Signs a token over a payload; the signing scheme itself is not modelled. */
    const sign: Payload -> string

    constructor (usersService: UsersService, sign: Payload -> string)
      ensures this.usersService == usersService && this.sign == sign
    {
      this.usersService := usersService;
      this.sign := sign;
    }

    /**
     * Creates an unconfirmed user under `newId` (the generated identifier) unless
     * the email is taken, and answers with the link whose token is that id.
     */
    method Register(email: string, password: string, newId: string) returns (r: Result<Registration>)
      requires usersService.Valid()
      modifies usersService
      ensures usersService.Valid()
      ensures EmailInUse(old(usersService.users), email) ==>
        r == Failure(Conflict(EmailTakenMessage)) && usersService.users == old(usersService.users)
      ensures !EmailInUse(old(usersService.users), email) ==>
        r == Ok(Registration(email, ConfirmLink(newId))) &&
        usersService.users == old(usersService.users)[newId := User(newId, email, password, false)]
    {
      var existing := usersService.FindByEmail(email);
      if existing.Some? {
        return Failure(Conflict(EmailTakenMessage));
      }
      var created := usersService.CreateUser(newId, email, password);
      match created {
        case Failure(e) => return Failure(e);
        case Ok(newUser) =>
          var saved := usersService.SaveUser(newUser);
          match saved {
            case Failure(e) => return Failure(e);
            case Ok(stored) => r := Ok(Registration(stored.email, ConfirmLink(stored.id)));
          }
      }
    }

    /** Confirms the user whose id is the token; a user already confirmed is confirmed again without error. */
    method ConfirmEmail(token: string) returns (r: Result<Confirmation>)
      requires usersService.Valid()
      modifies usersService
      ensures usersService.Valid()
      ensures token !in old(usersService.users) ==>
        r == Failure(NotFound(InvalidTokenMessage)) && usersService.users == old(usersService.users)
      ensures token in old(usersService.users) ==>
        r == Ok(Confirmation(true)) && usersService.users == WithConfirmed(old(usersService.users), token)
    {
      var found := usersService.FindById(token);
      if found.None? {
        return Failure(NotFound(InvalidTokenMessage));
      }
      var user := found.value.(confirmed := true);
      var saved := usersService.SaveUser(user);
      match saved {
        case Failure(e) => return Failure(e);
        case Ok(_) => r := Ok(Confirmation(true));
      }
    }

    /** Signs a token over the user's id and email when the credentials match (passwords compared as stored). */
    method Login(email: string, password: string) returns (r: Result<string>)
      requires usersService.Valid()
      ensures r.Ok? <==> CredentialsMatch(usersService.users, email, password)
      ensures r.Failure? ==> r.error == NotFound(InvalidCredentialsMessage)
      ensures r.Ok? ==>
        exists id :: id in usersService.users && usersService.users[id].email == email &&
          usersService.users[id].confirmed && usersService.users[id].password == password &&
          r.value == sign(Payload(id, email))
    {
      var user := usersService.FindByEmail(email);
      if user.None? || !user.value.confirmed || user.value.password != password {
        return Failure(NotFound(InvalidCredentialsMessage));
      }
      var payload := Payload(user.value.id, user.value.email);
      r := Ok(sign(payload));
    }

    /** The user with that id, confirmed or not. */
    method ValidateUserById(userId: string) returns (r: Result<User>)
      ensures userId !in usersService.users ==> r == Failure(NotFound(UserNotFoundMessage))
      ensures userId in usersService.users ==> r == Ok(usersService.users[userId])
    {
      var user := usersService.FindById(userId);
      if user.None? {
        return Failure(NotFound(UserNotFoundMessage));
      }
      r := Ok(user.value);
    }
  }
}
