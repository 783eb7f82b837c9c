/** POST /api/auth/register, POST /api/auth/login and GET /api/auth/me. */
module AuthRoutes {
  import opened Optional
  import opened Store
  import opened Crypto
  import opened Http

  datatype RegisterRequest = RegisterRequest(username: Option<string>, email: Option<string>, password: Option<string>)
  datatype LoginRequest = LoginRequest(email: Option<string>, password: Option<string>)

  const MissingFields := "Please provide all fields"
  const UserExists := "User already exists"
  const RegisterFailed := "Server error during registration"
  const MissingCredentials := "Please provide email and password"
  const InvalidCredentials := "Invalid credentials"
  const LoginFailed := "Server error during login"

  predicate AllGiven(req: RegisterRequest) {
    Given(req.username) && Given(req.email) && Given(req.password)
  }

  predicate CredentialsGiven(req: LoginRequest) {
    Given(req.email) && Given(req.password)
  }

  predicate EmailTaken(users: seq<User>, email: string) {
    exists i :: 0 <= i < |users| && users[i].email == email
  }

  predicate UniqueEmails(users: seq<User>) {
    forall i, j :: 0 <= i < j < |users| ==> users[i].email != users[j].email
  }

  /** The position of the first user whose email equals the given one, or
      None when no user has it. */
  function FirstWithEmail(users: seq<User>, email: string): (r: Option<nat>)
    ensures r.Some? ==> r.value < |users| && users[r.value].email == email
    ensures r.Some? ==> forall j :: 0 <= j < r.value ==> users[j].email != email
    ensures r.None? <==> !EmailTaken(users, email)
  {
    if |users| == 0 then None
    else if users[0].email == email then Some(0)
    else
      match FirstWithEmail(users[1..], email)
      case None =>
        assert forall j :: 1 <= j < |users| ==> users[j] == users[1..][j - 1];
        None
      case Some(k) => Some(k + 1)
  }

  /** The key the store gives a new user: above every key in use. */
  function FreshId(users: seq<User>): (id: UserId)
    ensures forall i :: 0 <= i < |users| ==> users[i].id < id
  {
    if |users| == 0 then 1
    else
      var rest := FreshId(users[1..]);
      assert forall i :: 1 <= i < |users| ==> users[i] == users[1..][i - 1];
      if users[0].id + 1 > rest then users[0].id + 1 else rest
  }

  function PublicOf(u: User): PublicUser {
    PublicUser(u.id, u.username, u.email)
  }

  /** The session a successful register or login answers with: a token over
      {id, email} and the projection without the password. */
  function SessionOf(u: User): Body {
    Session(Claims(u.id, u.email), PublicOf(u))
  }

  /** POST /register. The existence lookup is inspected only for rows found:
      a failed lookup is ignored and registration goes on to the insert.
      `hash` is the hasher with this request's salt; `now` is `created_at`. */
  function Register(st: State, req: RegisterRequest, f: Faults, hash: Hasher, now: int): (o: Outcome)
    ensures o.state.ratings == st.ratings && o.state.bakeryRatings == st.bakeryRatings
    ensures o.state.favorites == st.favorites
    ensures o.response.status in {Created, BadRequest, ServerError}
    ensures !AllGiven(req) <==> o.response == Response(BadRequest, Message(MissingFields))
    ensures o.response == Response(BadRequest, Message(UserExists)) <==>
      AllGiven(req) && !f.lookupFails && EmailTaken(st.users, req.email.value)
    ensures o.response.status == ServerError <==>
      AllGiven(req) && (f.lookupFails || !EmailTaken(st.users, req.email.value)) && f.insertFails
    ensures o.response.status == ServerError ==> o.response.body == Message(RegisterFailed)
    ensures o.response.status == Created <==>
      AllGiven(req) && (f.lookupFails || !EmailTaken(st.users, req.email.value)) && !f.insertFails
    ensures o.response.status != Created ==> o.state == st
    ensures o.response.status == Created ==>
      && |o.state.users| == |st.users| + 1
      && o.state.users[..|st.users|] == st.users
      && var added := o.state.users[|st.users|];
      && added.username == req.username.value
      && added.email == req.email.value
      && added.passwordHash == hash(req.password.value)
      && (forall i :: 0 <= i < |st.users| ==> st.users[i].id != added.id)
      && o.response.body == Session(Claims(added.id, added.email), PublicUser(added.id, added.username, added.email))
    ensures UniqueUserIds(st.users) ==> UniqueUserIds(o.state.users)
  {
    if !AllGiven(req) then
      Outcome(st, Response(BadRequest, Message(MissingFields)))
    else if !f.lookupFails && FirstWithEmail(st.users, req.email.value).Some? then
      Outcome(st, Response(BadRequest, Message(UserExists)))
    else if f.insertFails then
      Outcome(st, Response(ServerError, Message(RegisterFailed)))
    else
      var added := User(FreshId(st.users), req.username.value, req.email.value, hash(req.password.value), now);
      var users := st.users + [added];
      assert users[..|st.users|] == st.users;
      Outcome(st.(users := users), Response(Created, SessionOf(added)))
  }

  /** POST /login: the first user with the email, and the comparer on its hash. */
  function Login(st: State, req: LoginRequest, f: Faults, compare: Comparer): (r: Response)
    ensures r.status in {Ok, BadRequest, ServerError}
    ensures !CredentialsGiven(req) <==> r == Response(BadRequest, Message(MissingCredentials))
    ensures r.status == ServerError <==> CredentialsGiven(req) && f.lookupFails
    ensures r.status == Ok <==>
      && CredentialsGiven(req) && !f.lookupFails
      && FirstWithEmail(st.users, req.email.value).Some?
      && compare(req.password.value, st.users[FirstWithEmail(st.users, req.email.value).value].passwordHash)
    ensures r.status == Ok ==>
      var u := st.users[FirstWithEmail(st.users, req.email.value).value];
      r.body == Session(Claims(u.id, u.email), PublicUser(u.id, u.username, u.email))
    ensures CredentialsGiven(req) && !f.lookupFails && r.status != Ok ==>
      r == Response(BadRequest, Message(InvalidCredentials))
  {
    if !CredentialsGiven(req) then
      Response(BadRequest, Message(MissingCredentials))
    else if f.lookupFails then
      Response(ServerError, Message(LoginFailed))
    else
      match FirstWithEmail(st.users, req.email.value)
      case None => Response(BadRequest, Message(InvalidCredentials))
      case Some(k) =>
        var u := st.users[k];
        if !compare(req.password.value, u.passwordHash) then Response(BadRequest, Message(InvalidCredentials))
        else Response(Ok, SessionOf(u))
  }

  /** The users whose key is `id`, in table order. */
  function UsersWithId(users: seq<User>, id: UserId): (r: seq<User>)
    ensures forall x :: x in r <==> x in users && x.id == id
  {
    if |users| == 0 then []
    else (if users[0].id == id then [users[0]] else []) + UsersWithId(users[1..], id)
  }

  lemma {:induction false} UniqueIdHasOneUser(users: seq<User>, id: UserId)
    ensures UniqueUserIds(users) ==> |UsersWithId(users, id)| <= 1
  {
    if |users| > 0 && UniqueUserIds(users) {
      var tail := users[1..];
      assert UniqueUserIds(tail) by {
        forall i, j | 0 <= i < j < |tail| ensures tail[i].id != tail[j].id {
          assert tail[i] == users[i + 1] && tail[j] == users[j + 1];
        }
      }
      UniqueIdHasOneUser(tail, id);
      if users[0].id == id {
        assert forall j :: 0 <= j < |tail| ==> tail[j] == users[j + 1];
        AbsentIdSelectsNothing(tail, id);
      }
    }
  }

  lemma {:induction false} AbsentIdSelectsNothing(users: seq<User>, id: UserId)
    requires forall j :: 0 <= j < |users| ==> users[j].id != id
    ensures UsersWithId(users, id) == []
  {
    if |users| > 0 {
      AbsentIdSelectsNothing(users[1..], id);
    }
  }

  /** GET /me for the token's subject. `.single()` fails unless exactly one
      row has the id, so a user deleted after the token was issued gets 500. */
  function Me(st: State, caller: Claims, f: Faults): (r: Response)
    ensures r.status in {Ok, ServerError}
    ensures r.status == Ok ==>
      exists u :: u in st.users && u.id == caller.id && r.body == ProfileBody(Profile(u.id, u.username, u.email, u.createdAt))
    ensures f.lookupFails || !(exists u :: u in st.users && u.id == caller.id) ==> r.status == ServerError
    ensures !f.lookupFails && UniqueUserIds(st.users) && (exists u :: u in st.users && u.id == caller.id) ==>
      r.status == Ok
  {
    var found := UsersWithId(st.users, caller.id);
    UniqueIdHasOneUser(st.users, caller.id);
    if f.lookupFails || |found| != 1 then
      assert (exists u :: u in st.users && u.id == caller.id) ==> found[0] in found;
      Response(ServerError, Message(ServerErrorText))
    else
      var u := found[0];
      assert u in found;
      Response(Ok, ProfileBody(Profile(u.id, u.username, u.email, u.createdAt)))
  }

  /** With a field missing, nothing in the store, its failures, the hasher
      or the clock changes the answer, and nothing is written. */
  lemma MissingFieldNeedsNoStore(st1: State, st2: State, req: RegisterRequest, f1: Faults, f2: Faults,
                                 h1: Hasher, h2: Hasher, now1: int, now2: int)
    requires !AllGiven(req)
    ensures Register(st1, req, f1, h1, now1).response == Register(st2, req, f2, h2, now2).response
    ensures Register(st1, req, f1, h1, now1).state == st1
  {
  }

  /** A successful lookup keeps emails unique: a second account for an email
      can only come from a failed lookup. */
  lemma RegisterKeepsEmailsUnique(st: State, req: RegisterRequest, f: Faults, hash: Hasher, now: int)
    requires UniqueEmails(st.users) && !f.lookupFails
    ensures UniqueEmails(Register(st, req, f, hash, now).state.users)
  {
  }

  /** A failed lookup lets a second account with a taken email in. */
  lemma FailedLookupAdmitsDuplicate(st: State, req: RegisterRequest, f: Faults, hash: Hasher, now: int)
    requires AllGiven(req) && f.lookupFails && !f.insertFails
    requires EmailTaken(st.users, req.email.value)
    ensures !UniqueEmails(Register(st, req, f, hash, now).state.users)
  {
  }

  /** An unknown email and a wrong password get the very same answer. */
  lemma LoginFailuresLookAlike(st1: State, st2: State, req: LoginRequest, f: Faults, compare: Comparer)
    requires CredentialsGiven(req) && !f.lookupFails
    requires !EmailTaken(st1.users, req.email.value)
    requires FirstWithEmail(st2.users, req.email.value).Some?
    requires !compare(req.password.value, st2.users[FirstWithEmail(st2.users, req.email.value).value].passwordHash)
    ensures Login(st1, req, f, compare) == Login(st2, req, f, compare) == Response(BadRequest, Message(InvalidCredentials))
  {
  }

  /** Logging in with the credentials just registered, when the comparer
      accepts the password against its own hash, answers with the same
      session as the registration. */
  lemma RegisterThenLogin(st: State, req: RegisterRequest, f: Faults, hash: Hasher, now: int, compare: Comparer, g: Faults)
    requires Register(st, req, f, hash, now).response.status == Created
    requires !f.lookupFails && !g.lookupFails
    requires compare(req.password.value, hash(req.password.value))
    ensures var o := Register(st, req, f, hash, now);
      Login(o.state, LoginRequest(req.email, req.password), g, compare) == Response(Ok, o.response.body)
  {
  }
}
