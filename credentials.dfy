/** The `users` collection and the decisions of registration and login.
    Password hashing is kept abstract: a pair of functions of which only
    the documented contract is assumed, that a hash made from a password
    verifies that password. */
module Credentials {
  import opened JsValues

  /** `bcrypt.hash(password, 10)` with its random salt as a parameter, and
      `bcrypt.compare(password, hash)`. */
  datatype Hasher = Hasher(hash: (string, nat) -> string, compare: (string, string) -> bool)
  {
    /** The documented contract: a password is accepted by every hash made from it. */
    ghost predicate Sound()
    {
      forall p, salt :: compare(p, hash(p, salt))
    }
  }

  /** A stored user `{_id, email, password: hash}`. */
  datatype User = User(id: ObjectId, email: string, password: string)

  /** `findOne({email})`: the first user with that email in store order. */
  function FindByEmail(users: seq<User>, email: string): (r: Option<User>)
    ensures r.Some? ==> r.value in users && r.value.email == email
    ensures r.Some? ==> exists i :: 0 <= i < |users| && users[i] == r.value && forall j :: 0 <= j < i ==> users[j].email != email
    ensures r.None? <==> forall u :: u in users ==> u.email != email
  {
    if users == [] then None
    else if users[0].email == email then Some(users[0])
    else FindByEmail(users[1..], email)
  }

  /** No user identifier is stored twice, as the store's primary key guarantees. */
  predicate UniqueUserIds(users: seq<User>)
  {
    forall i, j :: 0 <= i < |users| && 0 <= j < |users| && i != j ==> users[i].id != users[j].id
  }

  /** Appending a user whose identifier no stored user has keeps identifiers distinct. */
  lemma AppendKeepsUserIdsUnique(users: seq<User>, u: User)
    requires UniqueUserIds(users) && forall j :: 0 <= j < |users| ==> users[j].id != u.id
    ensures UniqueUserIds(users + [u])
  {
    var s := users + [u];
    forall i, j | 0 <= i < |s| && 0 <= j < |s| && i != j
      ensures s[i].id != s[j].id
    {
      if i < |users| && j < |users| { assert s[i] == users[i] && s[j] == users[j]; }
      else if i < |users| { assert s[i] == users[i]; }
      else if j < |users| { assert s[j] == users[j]; }
    }
  }

  /** No email is stored twice. */
  predicate UniqueEmails(users: seq<User>)
  {
    forall i, j :: 0 <= i < |users| && 0 <= j < |users| && i != j ==> users[i].email != users[j].email
  }

  /** With distinct emails, the lookup finds the one user with that email. */
  lemma {:induction false} FindByEmailUnique(users: seq<User>, u: User)
    requires UniqueEmails(users) && u in users
    ensures FindByEmail(users, u.email) == Some(u)
  {
    if users[0] != u {
      assert UniqueEmails(users[1..]) by {
        forall i, j | 0 <= i < |users[1..]| && 0 <= j < |users[1..]| && i != j
          ensures users[1..][i].email != users[1..][j].email
        {
          assert users[1..][i] == users[i + 1] && users[1..][j] == users[j + 1];
        }
      }
      var k :| 0 <= k < |users| && users[k] == u;
      assert users[0].email != u.email by {
        assert k != 0;
      }
      FindByEmailUnique(users[1..], u);
    }
  }

  /** What `/register` decides before it touches the store. */
  datatype RegisterDecision =
    | RegisterMissingFields
    | EmailTaken
    | Insert(email: string, password: string)

  function DecideRegister(users: seq<User>, email: Option<string>, password: Option<string>): (d: RegisterDecision)
    ensures d.RegisterMissingFields? <==> Falsy(email) || Falsy(password)
    ensures d.EmailTaken? <==> !Falsy(email) && !Falsy(password) && exists u :: u in users && u.email == email.value
    ensures d.Insert? ==> d.email == email.value && d.password == password.value && d.email != "" && d.password != ""
  {
    if Falsy(email) || Falsy(password) then RegisterMissingFields
    else if FindByEmail(users, email.value).Some? then EmailTaken
    else Insert(email.value, password.value)
  }

  /** Inserting a user whose email is not yet stored keeps emails distinct. */
  lemma InsertKeepsUnique(users: seq<User>, u: User)
    requires UniqueEmails(users) && FindByEmail(users, u.email).None?
    ensures UniqueEmails(users + [u])
  {
    var s := users + [u];
    forall i, j | 0 <= i < |s| && 0 <= j < |s| && i != j
      ensures s[i].email != s[j].email
    {
      if i < |users| { assert s[i] in users; }
      if j < |users| { assert s[j] in users; }
    }
  }

  /** Registering the same email a second time is a conflict, whatever the
      second password is. */
  lemma {:induction false} SecondRegisterConflicts(users: seq<User>, id: ObjectId, email: string, hashed: string, again: string)
    requires email != "" && again != ""
    ensures DecideRegister(users + [User(id, email, hashed)], Some(email), Some(again)) == EmailTaken
  {
    var s := users + [User(id, email, hashed)];
    assert s[|users|] in s;
  }

  /** What `/login` decides. */
  datatype LoginDecision =
    | LoginMissingFields
    | InvalidCredentials
    | Authenticated(user: User)

  function DecideLogin(users: seq<User>, email: Option<string>, password: Option<string>, hasher: Hasher): (d: LoginDecision)
    ensures d.LoginMissingFields? <==> Falsy(email) || Falsy(password)
    ensures d.Authenticated? ==> d.user in users && d.user.email == email.value && hasher.compare(password.value, d.user.password)
    ensures !Falsy(email) && !Falsy(password) && (forall u :: u in users ==> u.email != email.value) ==> d.InvalidCredentials?
  {
    if Falsy(email) || Falsy(password) then LoginMissingFields
    else match FindByEmail(users, email.value)
      case None => InvalidCredentials
      case Some(u) => if hasher.compare(password.value, u.password) then Authenticated(u) else InvalidCredentials
  }

  /** With distinct emails, login of a stored user succeeds exactly when the
      hasher accepts the password against the stored hash. */
  lemma LoginIffPassword(users: seq<User>, u: User, password: string, hasher: Hasher)
    requires UniqueEmails(users) && u in users && u.email != "" && password != ""
    ensures DecideLogin(users, Some(u.email), Some(password), hasher).Authenticated? <==> hasher.compare(password, u.password)
    ensures DecideLogin(users, Some(u.email), Some(password), hasher).Authenticated? ==> DecideLogin(users, Some(u.email), Some(password), hasher).user == u
  {
    FindByEmailUnique(users, u);
  }

  /** Right after registering, login with the same password authenticates the
      new user, and login with a password the new hash does not accept is
      refused. */
  lemma {:induction false} RegisterThenLogin(users: seq<User>, id: ObjectId, email: string, password: string, salt: nat, other: string, hasher: Hasher)
    requires hasher.Sound()
    requires UniqueEmails(users) && FindByEmail(users, email).None?
    requires email != "" && password != "" && other != ""
    requires !hasher.compare(other, hasher.hash(password, salt))
    ensures var s := users + [User(id, email, hasher.hash(password, salt))];
      && DecideLogin(s, Some(email), Some(password), hasher) == Authenticated(User(id, email, hasher.hash(password, salt)))
      && DecideLogin(s, Some(email), Some(other), hasher) == InvalidCredentials
  {
    var u := User(id, email, hasher.hash(password, salt));
    var s := users + [u];
    InsertKeepsUnique(users, u);
    assert u in s;
    LoginIffPassword(s, u, password, hasher);
    LoginIffPassword(s, u, other, hasher);
  }
}
