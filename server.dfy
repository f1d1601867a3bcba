/**
 * The user registry of the backend (backend/server.js): the `/register` and `/login` handlers over
 * the users collection, here a sequence of user documents in insertion order. Both handlers first
 * check that the request names every field they need, then look users up by exact match.
 */
module Server {
  import opened Wrappers
  import ArrayOps

  /** A user document. The password is stored and compared as given. */
  datatype User = User(firstName: string, lastName: string, username: string, password: string, role: string)

  /** The body of a `/register` request; None for a field the body does not have. */
  datatype RegisterBody = RegisterBody(firstName: Option<string>, lastName: Option<string>,
                                       username: Option<string>, password: Option<string>,
                                       role: Option<string>)

  /** The body of a `/login` request. */
  datatype LoginBody = LoginBody(username: Option<string>, password: Option<string>)

  /** The JSON bodies the handlers answer with. */
  datatype Body =
    | ErrorBody(success: Option<bool>, error: string)   // { error } or { success: false, error }
    | MessageBody(message: string)                      // { message }
    | SessionBody(role: string, username: string)       // { success: true, role, username }

  datatype Reply = Reply(status: int, body: Body)

  const AllFieldsRequired: Reply := Reply(400, ErrorBody(None, "All fields are required"))
  const UsernameTaken: Reply := Reply(409, ErrorBody(None, "Username already exists"))
  const Registered: Reply := Reply(200, MessageBody("User registered successfully"))
  const MissingFields: Reply := Reply(400, ErrorBody(Some(false), "Missing fields"))
  const InvalidCredentials: Reply := Reply(401, ErrorBody(Some(false), "Invalid credentials"))

  /** A request field passes `!field` only when it is there and not empty. */
  predicate Present(f: Option<string>) {
    f.Some? && f.value != ""
  }

  predicate Complete(b: RegisterBody) {
    Present(b.firstName) && Present(b.lastName) && Present(b.username) && Present(b.password) && Present(b.role)
  }

  /** `new User({ firstName, lastName, username, password, role })`. */
  function NewUser(b: RegisterBody): User
    requires Complete(b)
  {
    User(b.firstName.value, b.lastName.value, b.username.value, b.password.value, b.role.value)
  }

  /** No two stored users share a username. */
  ghost predicate DistinctUsernames(users: seq<User>) {
    forall i, j :: 0 <= i < j < |users| ==> users[i].username != users[j].username
  }

  /** `User.findOne({ username })`. */
  function FindByUsername(users: seq<User>, username: string): (r: Option<User>)
    ensures r.None? <==> forall j :: 0 <= j < |users| ==> users[j].username != username
    ensures r.Some? ==> r.value in users && r.value.username == username
  {
    ArrayOps.Find(users, (u: User) => u.username == username)
  }

  /** `User.findOne({ username, password })`. */
  function FindByCredentials(users: seq<User>, username: string, password: string): (r: Option<User>)
    ensures r.None? <==> forall j :: 0 <= j < |users| ==> !(users[j].username == username && users[j].password == password)
    ensures r.Some? ==> r.value.username == username && r.value.password == password
    ensures r.Some? ==> exists k :: 0 <= k < |users| && users[k] == r.value &&
                          forall j :: 0 <= j < k ==> !(users[j].username == username && users[j].password == password)
  {
    ArrayOps.Find(users, (u: User) => u.username == username && u.password == password)
  }

  /**
   * The `/login` handler: 400 when a field is missing or empty, else 200 with the role and
   * username of the first user matching both username and password, else 401.
   */
  function Login(users: seq<User>, body: LoginBody): (r: Reply)
    ensures !Present(body.username) || !Present(body.password) ==> r == MissingFields
    ensures Present(body.username) && Present(body.password) ==>
              (r.status == 200 <==> exists j :: 0 <= j < |users| &&
                                     users[j].username == body.username.value && users[j].password == body.password.value)
    ensures r.status != 200 ==> r == MissingFields || r == InvalidCredentials
    ensures Present(body.username) && Present(body.password) && r.status != 200 ==> r == InvalidCredentials
    ensures r.status == 200 ==>
              exists j :: 0 <= j < |users| && users[j].username == body.username.value &&
                          users[j].password == body.password.value &&
                          r == Reply(200, SessionBody(users[j].role, users[j].username))
  {
    if !Present(body.username) || !Present(body.password) then MissingFields
    else match FindByCredentials(users, body.username.value, body.password.value)
         case None => InvalidCredentials
         case Some(u) => Reply(200, SessionBody(u.role, u.username))
  }

  /**
   * Right after a registration, logging in with the same username and password succeeds and
   * gives back the registered role: the new user is the only one with that username.
   */
  lemma RegisterThenLogin(users: seq<User>, body: RegisterBody)
    requires DistinctUsernames(users)
    requires Complete(body)
    requires forall j :: 0 <= j < |users| ==> users[j].username != body.username.value
    ensures DistinctUsernames(users + [NewUser(body)])
    ensures Login(users + [NewUser(body)], LoginBody(body.username, body.password)) ==
            Reply(200, SessionBody(body.role.value, body.username.value))
  {
    var users' := users + [NewUser(body)];
    var u, p := body.username.value, body.password.value;
    assert users'[|users|] == NewUser(body);
    var found := FindByCredentials(users', u, p);
    assert found.Some?;
    var k :| 0 <= k < |users'| && users'[k] == found.value &&
             forall j :: 0 <= j < k ==> !(users'[j].username == u && users'[j].password == p);
    if k < |users| { assert false; }
  }

  /** The users collection, written by `/register` and read by `/login`. */
  class UserCollection {
    var users: seq<User>

    ghost predicate Valid()
      reads this
    {
      DistinctUsernames(users)
    }

    constructor ()
      ensures Valid() && users == []
    {
      users := [];
    }

    /**
     * The `/register` handler: 400 when a field is missing or empty (checked before the store is
     * consulted), 409 when the username is taken, else the new user is saved. Only a 200 changes
     * the store, by exactly one user, and usernames stay distinct.
     */
    method Register(body: RegisterBody) returns (reply: Reply)
      requires Valid()
      modifies this
      ensures Valid()
      ensures !Complete(body) ==> reply == AllFieldsRequired && users == old(users)
      ensures Complete(body) && (exists j :: 0 <= j < |old(users)| && old(users)[j].username == body.username.value) ==>
                reply == UsernameTaken && users == old(users)
      ensures Complete(body) && (forall j :: 0 <= j < |old(users)| ==> old(users)[j].username != body.username.value) ==>
                reply == Registered && users == old(users) + [NewUser(body)]
    {
      if !Complete(body) {
        return AllFieldsRequired;
      }
      var existing := FindByUsername(users, body.username.value);
      if existing.Some? {
        return UsernameTaken;
      }
      users := users + [NewUser(body)];
      reply := Registered;
    }
  }
}
