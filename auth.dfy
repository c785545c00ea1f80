/** The login decision rule of the authentication service (loginUser).

    The `users` collection of the document database is a sequence of records
    in the order the database returns them; an equality query on a field is
    the subsequence of records whose field equals the queried value. */
module Auth {

  /** A stored user document: its document id and the fields the rule reads. */
  datatype User = User(id: string, email: string, username: string, fullName: string, password: string)

  /** The projection returned on success; the password is not part of it. */
  datatype UserView = UserView(id: string, fullName: string, username: string, email: string)

  /** `{success: true, user}` or `{success: false, message}`. */
  datatype LoginResult = Success(user: UserView) | Failure(message: string)

  const IncorrectPassword: string := "Incorrect password"
  const UserNotFound: string := "User not found"

  /** The two fields the rule queries on. */
  datatype Field = Email | Username

  function FieldOf(u: User, f: Field): string {
    match f
    case Email => u.email
    case Username => u.username
  }

  /** Some record of `users` has field `f` equal to `x`. */
  ghost predicate HasMatch(users: seq<User>, f: Field, x: string) {
    exists j :: 0 <= j < |users| && FieldOf(users[j], f) == x
  }

  /** `users[i]` is the first record whose field `f` equals `x`. */
  ghost predicate IsFirstMatch(users: seq<User>, f: Field, x: string, i: int) {
    0 <= i < |users| && FieldOf(users[i], f) == x &&
    forall j :: 0 <= j < i ==> FieldOf(users[j], f) != x
  }

  /** The record the rule decides on: the first email match, or, when no
      record has that email, the first username match. */
  ghost predicate IsFirstOwner(users: seq<User>, identifier: string, i: int) {
    IsFirstMatch(users, Email, identifier, i) ||
    (!HasMatch(users, Email, identifier) && IsFirstMatch(users, Username, identifier, i))
  }

  /** An equality query `where(f, "==", x)`: the matching records, in order. */
  function Where(users: seq<User>, f: Field, x: string): (r: seq<User>)
    ensures |r| <= |users|
    ensures forall u :: u in r <==> u in users && FieldOf(u, f) == x
  {
    if users == [] then []
    else (if FieldOf(users[0], f) == x then [users[0]] else []) + Where(users[1..], f, x)
  }

  /** The query snapshot the rule works on: by email, and by username only
      when the email query is empty. */
  function Lookup(users: seq<User>, identifier: string): (r: seq<User>)
    ensures forall u :: u in r ==>
              (u in users && (FieldOf(u, Email) == identifier || FieldOf(u, Username) == identifier))
    ensures r == [] <==> !HasMatch(users, Email, identifier) && !HasMatch(users, Username, identifier)
  {
    var byEmail := Where(users, Email, identifier);
    if byEmail == [] then
      var byUsername := Where(users, Username, identifier);
      assert byUsername != [] ==> byUsername[0] in byUsername;
      byUsername
    else
      assert byEmail[0] in byEmail;
      byEmail
  }

  /** The four fields copied out of a document on success. */
  function Project(u: User): (v: UserView)
    ensures v.id == u.id && v.fullName == u.fullName && v.username == u.username && v.email == u.email
  {
    UserView(u.id, u.fullName, u.username, u.email)
  }

  /** The password check on the chosen document. */
  function Verify(doc: User, password: string): (r: LoginResult)
    ensures r.Success? <==> doc.password == password
    ensures r.Success? ==> r.user == Project(doc)
    ensures r.Failure? ==> r.message == IncorrectPassword
  {
    if doc.password == password then Success(Project(doc)) else Failure(IncorrectPassword)
  }

  /** loginUser(identifier, password) over the collection `users`. */
  function Login(users: seq<User>, identifier: string, password: string): (r: LoginResult)
    ensures r.Success? ==> r.user.email == identifier || r.user.username == identifier
    ensures r == Failure(UserNotFound) <==>
              !HasMatch(users, Email, identifier) && !HasMatch(users, Username, identifier)
  {
    var snapshot := Lookup(users, identifier);
    if snapshot != [] then
      assert snapshot[0] in snapshot;
      Verify(snapshot[0], password)
    else
      Failure(UserNotFound)
  }

  // ---------------------------------------------------------------------------
  // Lemmas about the query model

  /** A collection with a match has a first match. */
  lemma {:induction false} FirstMatchExists(users: seq<User>, f: Field, x: string)
    requires HasMatch(users, f, x)
    ensures exists i :: IsFirstMatch(users, f, x, i)
  {
    if FieldOf(users[0], f) == x {
      assert IsFirstMatch(users, f, x, 0);
    } else {
      var j :| 0 <= j < |users| && FieldOf(users[j], f) == x;
      assert FieldOf(users[1..][j - 1], f) == x;
      FirstMatchExists(users[1..], f, x);
      var k :| IsFirstMatch(users[1..], f, x, k);
      assert IsFirstMatch(users, f, x, k + 1);
    }
  }

  /** The query result starts with the first matching record. */
  lemma {:induction false} WhereStartsWithFirstMatch(users: seq<User>, f: Field, x: string, i: int)
    requires IsFirstMatch(users, f, x, i)
    ensures Where(users, f, x) != [] && Where(users, f, x)[0] == users[i]
  {
    if i > 0 {
      assert FieldOf(users[0], f) != x;
      assert IsFirstMatch(users[1..], f, x, i - 1);
      WhereStartsWithFirstMatch(users[1..], f, x, i - 1);
    }
  }

  /** The rule always has a record to decide on when some record matches. */
  lemma FirstOwnerExists(users: seq<User>, identifier: string)
    requires HasMatch(users, Email, identifier) || HasMatch(users, Username, identifier)
    ensures exists i :: IsFirstOwner(users, identifier, i)
  {
    if HasMatch(users, Email, identifier) {
      FirstMatchExists(users, Email, identifier);
      var k :| IsFirstMatch(users, Email, identifier, k);
      assert IsFirstOwner(users, identifier, k);
    } else {
      FirstMatchExists(users, Username, identifier);
      var k :| IsFirstMatch(users, Username, identifier, k);
      assert IsFirstOwner(users, identifier, k);
    }
  }

  /** The snapshot's first document is the first owner. */
  lemma LookupStartsWithFirstOwner(users: seq<User>, identifier: string, i: int)
    requires IsFirstOwner(users, identifier, i)
    ensures Lookup(users, identifier) != [] && Lookup(users, identifier)[0] == users[i]
  {
    if IsFirstMatch(users, Email, identifier, i) {
      WhereStartsWithFirstMatch(users, Email, identifier, i);
    } else {
      LookupFallsBackToUsername(users, identifier);
      WhereStartsWithFirstMatch(users, Username, identifier, i);
    }
  }

  /** The username query is used exactly when no record has the identifier as email. */
  lemma LookupFallsBackToUsername(users: seq<User>, identifier: string)
    ensures !HasMatch(users, Email, identifier) ==> Lookup(users, identifier) == Where(users, Username, identifier)
    ensures HasMatch(users, Email, identifier) ==> Lookup(users, identifier) == Where(users, Email, identifier)
  {
    if HasMatch(users, Email, identifier) {
      var j :| 0 <= j < |users| && FieldOf(users[j], Email) == identifier;
      assert users[j] in Where(users, Email, identifier);
    }
  }

  // ---------------------------------------------------------------------------
  // Lemmas about the login rule

  /** The result is the password check on the first owner, and nothing else. */
  lemma LoginDecidesOnFirstOwner(users: seq<User>, identifier: string, password: string, i: int)
    requires IsFirstOwner(users, identifier, i)
    ensures Login(users, identifier, password) == Verify(users[i], password)
  {
    LookupStartsWithFirstOwner(users, identifier, i);
  }

  /** With an email match, only the first email match matters: two collections
      whose first email match is the same record give the same result, whatever
      their usernames and later records are. */
  lemma EmailMatchTakesPriority(users: seq<User>, others: seq<User>, identifier: string, password: string, i: int, k: int)
    requires IsFirstMatch(users, Email, identifier, i)
    requires IsFirstMatch(others, Email, identifier, k)
    requires others[k] == users[i]
    ensures Login(users, identifier, password) == Verify(users[i], password)
    ensures Login(others, identifier, password) == Login(users, identifier, password)
  {
    LoginDecidesOnFirstOwner(users, identifier, password, i);
    LoginDecidesOnFirstOwner(others, identifier, password, k);
  }

  /** Without an email match, the first username match decides. */
  lemma UsernameFallback(users: seq<User>, identifier: string, password: string, i: int)
    requires !HasMatch(users, Email, identifier)
    requires IsFirstMatch(users, Username, identifier, i)
    ensures Login(users, identifier, password) == Verify(users[i], password)
  {
    LoginDecidesOnFirstOwner(users, identifier, password, i);
  }

  /** A match whose password equals the supplied one logs in, with the
      projection of that document. */
  lemma LoginSucceedsOnRightPassword(users: seq<User>, identifier: string, password: string, i: int)
    requires IsFirstOwner(users, identifier, i)
    requires users[i].password == password
    ensures Login(users, identifier, password) == Success(Project(users[i]))
  {
    LoginDecidesOnFirstOwner(users, identifier, password, i);
  }

  /** A match whose password differs is refused with "Incorrect password",
      whatever later matching documents hold. */
  lemma LoginRefusesWrongPassword(users: seq<User>, identifier: string, password: string, i: int)
    requires IsFirstOwner(users, identifier, i)
    requires users[i].password != password
    ensures Login(users, identifier, password) == Failure(IncorrectPassword)
  {
    LoginDecidesOnFirstOwner(users, identifier, password, i);
  }

  /** Success means the first owner of the identifier holds that password, and
      the user returned is its projection. */
  lemma LoginSuccessIsSound(users: seq<User>, identifier: string, password: string)
    requires Login(users, identifier, password).Success?
    ensures exists i :: IsFirstOwner(users, identifier, i) && users[i].password == password &&
                        (users[i].email == identifier || users[i].username == identifier) &&
                        Login(users, identifier, password).user == Project(users[i])
  {
    FirstOwnerExists(users, identifier);
    var i :| IsFirstOwner(users, identifier, i);
    LoginDecidesOnFirstOwner(users, identifier, password, i);
  }

  /** A later matching document with the right password does not help when
      the first one has a different password. */
  lemma FirstMatchWinsExample()
    ensures Login([User("1", "a@x.io", "ann", "Ann A", "old"), User("2", "a@x.io", "ann2", "Ann B", "new")],
                  "a@x.io", "new") == Failure(IncorrectPassword)
  {
    var users := [User("1", "a@x.io", "ann", "Ann A", "old"), User("2", "a@x.io", "ann2", "Ann B", "new")];
    assert IsFirstMatch(users, Email, "a@x.io", 0);
    LoginRefusesWrongPassword(users, "a@x.io", "new", 0);
  }

  /** An email match shadows a different user whose username equals the identifier. */
  lemma EmailShadowsUsernameExample()
    ensures Login([User("1", "bob", "robert", "Bob", "p1"), User("2", "b@x.io", "bob", "Other Bob", "p2")],
                  "bob", "p2") == Failure(IncorrectPassword)
  {
    var users := [User("1", "bob", "robert", "Bob", "p1"), User("2", "b@x.io", "bob", "Other Bob", "p2")];
    assert IsFirstMatch(users, Email, "bob", 0);
    LoginRefusesWrongPassword(users, "bob", "p2", 0);
  }

  /** The username fallback logs in a user known only by username. */
  lemma UsernameLoginExample()
    ensures Login([User("7", "alice@example.com", "alice", "Alice", "secret")], "alice", "secret")
            == Success(UserView("7", "Alice", "alice", "alice@example.com"))
  {
    var users := [User("7", "alice@example.com", "alice", "Alice", "secret")];
    assert !HasMatch(users, Email, "alice") by {
      assert users[0].email != "alice";
    }
    assert IsFirstMatch(users, Username, "alice", 0);
    LoginSucceedsOnRightPassword(users, "alice", "secret", 0);
  }
}
