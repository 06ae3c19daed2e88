/** The request handlers over the two collections `users` and `todos`,
    held by one database object whose fields the handlers update. */
module Server {
  import opened JsValues
  import opened Pagination
  import opened Todos
  import opened Credentials
  import opened AuthGate

  /** `meta` of the listing. */
  datatype Meta = Meta(total: nat, pages: int, pageSize: int, page: int)

  /** What a handler sends. */
  datatype Body =
    | Unsent                              // a status is set but nothing is sent
    | Empty                               // `send()` with no content
    | StatusText(text: string)            // `sendStatus(code)`
    | Message(text: string)               // `{message}`
    | Error(text: string)                 // `{error}`
    | TokenBody(token: string)            // `{token}`
    | TodoPage(todos: seq<Todo>, meta: Meta)
    | StoredTodo(stored: Todo)            // `{...todo, id}`
    | MappedTodo(mapped: FrontendTodo)
    | DeletedTodo(deleted: FrontendTodo)  // `{todo: mapped}`

  datatype Response = Response(status: int, body: Body)

  const MissingFieldsText := "Email and password are required."
  const EmailTakenText := "Email already exists."
  const RegisteredText := "User registered successfully!"
  const InvalidLoginText := "Invalid email or password."
  const LoggedOutText := "Logged out successfully!"
  const NotFoundText := "Todo not found or unauthorized"
  const UpdateFailedText := "Failed to update todo"

  /** The answer of the gate when it stops a request. */
  function Rejection(o: GateOutcome): (r: Response)
    requires !o.Proceed?
    ensures o.Unauthorized? ==> r == Response(401, StatusText("Unauthorized"))
    ensures o.Forbidden? ==> r == Response(403, StatusText("Forbidden"))
  {
    if o.Unauthorized? then Response(401, StatusText("Unauthorized"))
    else Response(403, StatusText("Forbidden"))
  }

  /** `POST /validate-token`: 200 with an empty body exactly when the gate
      lets the request through. */
  function ValidateTokenResponse(o: GateOutcome): (r: Response)
    ensures r.status == 200 <==> o.Proceed?
    ensures o.Proceed? ==> r.body == Empty
    ensures o.Unauthorized? ==> r.status == 401
    ensures o.Forbidden? ==> r.status == 403
  {
    if o.Proceed? then Response(200, Empty) else Rejection(o)
  }

  /** `POST /logout`: no state changes; 200 with a message behind the gate. */
  function LogoutResponse(o: GateOutcome): (r: Response)
    ensures r.status == 200 <==> o.Proceed?
    ensures o.Proceed? ==> r.body == Message(LoggedOutText)
    ensures o.Unauthorized? ==> r.status == 401
    ensures o.Forbidden? ==> r.status == 403
  {
    if o.Proceed? then Response(200, Message(LoggedOutText)) else Rejection(o)
  }

  class Database {
    var users: seq<User>
    var todos: seq<Todo>
    /** Where the store's generator of fresh object identifiers stands. */
    var nextId: ObjectId

    ghost predicate Valid()
      reads this
    {
      && UniqueEmails(users)
      && UniqueUserIds(users)
      && (forall j :: 0 <= j < |users| ==> users[j].id < nextId)
      && UniqueIds(todos)
      && (forall j :: 0 <= j < |todos| ==> todos[j].id < nextId)
    }

    constructor ()
      ensures Valid() && users == [] && todos == [] && nextId == 0
    {
      users, todos, nextId := [], [], 0;
    }

    /** The store's `insertOne` identifier: one never handed out before. */
    method FreshId() returns (id: ObjectId)
      requires Valid()
      modifies this`nextId
      ensures Valid() && id == old(nextId) && nextId == id + 1
      ensures forall j :: 0 <= j < |todos| ==> todos[j].id != id
      ensures forall j :: 0 <= j < |users| ==> users[j].id != id
    {
      id := nextId;
      nextId := nextId + 1;
    }

    /** `POST /register`. */
    method Register(email: Option<string>, password: Option<string>, salt: nat, hasher: Hasher) returns (r: Response)
      requires Valid()
      modifies this
      ensures Valid()
      ensures todos == old(todos)
      ensures match DecideRegister(old(users), email, password)
        case RegisterMissingFields =>
          r == Response(400, Error(MissingFieldsText)) && users == old(users) && nextId == old(nextId)
        case EmailTaken =>
          r == Response(409, Error(EmailTakenText)) && users == old(users) && nextId == old(nextId)
        case Insert(e, p) =>
          && r == Response(201, Message(RegisteredText))
          && users == old(users) + [User(old(nextId), e, hasher.hash(p, salt))]
          && (forall j :: 0 <= j < |old(users)| ==> old(users)[j].id != old(nextId))
          && nextId == old(nextId) + 1
    {
      if Falsy(email) || Falsy(password) {
        return Response(400, Error(MissingFieldsText));
      }
      var existing := FindByEmail(users, email.value);
      if existing.Some? {
        return Response(409, Error(EmailTakenText));
      }
      var hashed := hasher.hash(password.value, salt);
      var id := FreshId();
      var user := User(id, email.value, hashed);
      InsertKeepsUnique(users, user);
      AppendKeepsUserIdsUnique(users, user);
      users := users + [user];
      r := Response(201, Message(RegisteredText));
    }

    /** `POST /login`: reads the users and changes nothing. */
    method Login(email: Option<string>, password: Option<string>, hasher: Hasher, jwt: Jwt) returns (r: Response)
      ensures match DecideLogin(users, email, password, hasher)
        case LoginMissingFields => r == Response(400, Error(MissingFieldsText))
        case InvalidCredentials => r == Response(401, Error(InvalidLoginText))
        case Authenticated(u) => r == Response(200, TokenBody(jwt.sign(Payload(u.id, u.email))))
      ensures r.status == 401 ==> r.body == Error(InvalidLoginText)
      ensures !Falsy(email) && !Falsy(password) && (forall u :: u in users ==> u.email != email.value) ==> r.status == 401
    {
      if Falsy(email) || Falsy(password) {
        return Response(400, Error(MissingFieldsText));
      }
      var user := FindByEmail(users, email.value);
      if user.None? || !hasher.compare(password.value, user.value.password) {
        return Response(401, Error(InvalidLoginText));
      }
      var token := jwt.sign(Payload(user.value.id, user.value.email));
      r := Response(200, TokenBody(token));
    }

    /** `GET /todos`: count the caller's todos, compute the page, fetch it.
        None stands for a negative skip or limit, whose handling by the store
        is not modelled. */
    method ListTodos(caller: Identity, perpage: Option<int>, page: Option<int>) returns (r: Option<Response>)
      ensures var owned := OwnedBy(todos, caller.id);
        var w := Paginate(|owned|, perpage, page);
        && (r.None? <==> w.start < 0 || w.pageSize < 0)
        && (r.Some? ==> r.value == Response(200, TodoPage(Slice(owned, w.start, w.pageSize), Meta(|owned|, w.pages, w.pageSize, w.page))))
      ensures NonNegative(perpage) && NonNegative(page) ==> r.Some?
      ensures r.Some? ==> forall t :: t in r.value.body.todos ==> t in todos && t.userId == caller.id
      ensures r.Some? ==> |r.value.body.todos| <= r.value.body.meta.pageSize
      ensures r.Some? && NonNegative(perpage) && NonNegative(page) && r.value.body.meta.total > 0 ==> r.value.body.todos != []
    {
      var owned := OwnedBy(todos, caller.id);
      var count := |owned|;
      var w := Paginate(count, perpage, page);
      if NonNegative(perpage) && NonNegative(page) {
        if count == 0 {
          EmptyCollectionWindow(perpage, page);
        } else {
          WindowInRange(count, perpage, page);
        }
      }
      if w.start < 0 || w.pageSize < 0 {
        return None;
      }
      var listed := Slice(owned, w.start, w.pageSize);
      forall t | t in listed
        ensures t in todos && t.userId == caller.id
      {
        var k :| 0 <= k < |listed| && listed[k] == t;
        assert owned[w.start + k] in owned;
      }
      r := Some(Response(200, TodoPage(listed, Meta(count, w.pages, w.pageSize, w.page))));
    }

    /** `POST /todos`: the caller becomes the owner whatever the body says. */
    method CreateTodo(caller: Identity, body: Option<TodoBody>) returns (r: Response)
      requires Valid()
      modifies this
      ensures Valid()
      ensures users == old(users) && nextId == old(nextId) + 1
      ensures forall j :: 0 <= j < |old(todos)| ==> old(todos)[j].id != old(nextId)
      ensures todos == old(todos) + [NewTodo(old(nextId), caller.id, body)]
      ensures r == Response(200, StoredTodo(NewTodo(old(nextId), caller.id, body)))
    {
      var id := FreshId();
      var todo := NewTodo(id, caller.id, body);
      todos := todos + [todo];
      r := Response(200, StoredTodo(todo));
    }

    /** `PUT /todos/:id`: a missing `todo` in the body fails before the store
        is asked (500); no record with that id and owner gives 404. */
    method UpdateTodo(caller: Identity, id: ObjectId, body: Option<TodoBody>) returns (r: Response)
      requires Valid()
      modifies this
      ensures Valid()
      ensures users == old(users) && nextId == old(nextId)
      ensures body.None? ==> r == Response(500, Error(UpdateFailedText)) && todos == old(todos)
      ensures body.Some? && FindOwned(old(todos), id, caller.id).None? ==>
        r == Response(404, Error(NotFoundText)) && todos == old(todos)
      ensures body.Some? && FindOwned(old(todos), id, caller.id).Some? ==>
        var i := FindOwned(old(todos), id, caller.id).value;
        && todos == Replaced(old(todos), i, body.value)
        && r == Response(200, MappedTodo(ToFrontend(todos[i])))
    {
      if body.None? {
        return Response(500, Error(UpdateFailedText));
      }
      var found := FindOwned(todos, id, caller.id);
      if found.None? {
        return Response(404, Error(NotFoundText));
      }
      var i := found.value;
      todos := Replaced(todos, i, body.value);
      r := Response(200, MappedTodo(ToFrontend(todos[i])));
    }

    /** `DELETE /todos/:id`, with the not-found answer actually sent. */
    method DeleteTodo(caller: Identity, id: ObjectId) returns (r: Response)
      requires Valid()
      modifies this
      ensures Valid()
      ensures users == old(users) && nextId == old(nextId)
      ensures FindOwned(old(todos), id, caller.id).None? ==>
        r == Response(404, Error(NotFoundText)) && todos == old(todos)
      ensures FindOwned(old(todos), id, caller.id).Some? ==>
        var i := FindOwned(old(todos), id, caller.id).value;
        && todos == Removed(old(todos), i)
        && r == Response(200, DeletedTodo(ToFrontend(old(todos)[i])))
    {
      var found := FindOwned(todos, id, caller.id);
      var deleted: Option<Todo> := None;
      if found.Some? {
        deleted := Some(todos[found.value]);
        RemovedIsGone(todos, found.value, caller.id);
        todos := Removed(todos, found.value);
      }
      r := DeleteResponse(deleted);
    }
  }

  /** The answer of the delete handler as written, given the document the
      store removed: on no match it executes `return res.status(404)`, which
      sets the status and sends nothing, so the request never completes. */
  function DeleteResponseAsWritten(deleted: Option<Todo>): (r: Response)
    ensures deleted.None? ==> r == Response(404, Unsent)
    ensures deleted.Some? ==> r == Response(200, DeletedTodo(ToFrontend(deleted.value)))
  {
    match deleted
    case None => Response(404, Unsent)
    case Some(t) => Response(200, DeletedTodo(ToFrontend(t)))
  }

  /** The corrected answer: a 404 that is sent, worded like the update
      handler's, and the same answer as written when a record was removed. */
  function DeleteResponse(deleted: Option<Todo>): (r: Response)
    ensures r.body != Unsent
    ensures deleted.None? ==> r == Response(404, Error(NotFoundText))
    ensures deleted.Some? ==> r == DeleteResponseAsWritten(deleted)
  {
    match deleted
    case None => Response(404, Error(NotFoundText))
    case Some(t) => Response(200, DeletedTodo(ToFrontend(t)))
  }

  /** A concrete request that shows it: user 2 deletes the record 0 of user 1;
      the store matches nothing, and as written no answer is sent, while the
      corrected handler answers 404. */
  lemma DeleteOfForeignRecordUnanswered()
    ensures var s := [Todo(0, 1, None, None, None)];
      && FindOwned(s, 0, 2).None?
      && DeleteResponseAsWritten(None) == Response(404, Unsent)
      && DeleteResponse(None) == Response(404, Error(NotFoundText))
  {
    NonOwnerNotFound([Todo(0, 1, None, None, None)], 0, 2);
  }

  /** Registering one email twice: the first request is created, the second
      is a conflict. */
  method RegisterTwice(email: string, password: string, again: string, salt: nat, salt2: nat, hasher: Hasher)
    returns (first: Response, second: Response)
    requires email != "" && password != "" && again != ""
    ensures first.status == 201 && second.status == 409
  {
    var db := new Database();
    first := db.Register(Some(email), Some(password), salt, hasher);
    SecondRegisterConflicts([], 0, email, hasher.hash(password, salt), again);
    second := db.Register(Some(email), Some(again), salt2, hasher);
  }

  /** A todo's life through the handlers: listed for its owner after create,
      invisible to another user, listed with new fields after an update, and
      gone after a delete, when a second delete is not found. */
  method TodoRoundTrip(caller: Identity, other: Identity, created: TodoBody, edit: TodoBody)
    returns (listed: seq<Todo>, foreign: Response, edited: seq<Todo>, emptied: seq<Todo>, again: Response)
    requires other.id != caller.id
    ensures |listed| == 1 && listed[0].userId == caller.id
    ensures listed[0].title == created.title && listed[0].date == created.date && listed[0].done == created.done
    ensures foreign == Response(404, Error(NotFoundText))
    ensures edited == [listed[0].(title := edit.title, date := edit.date, done := edit.done)]
    ensures emptied == [] && again == Response(404, Error(NotFoundText))
  {
    var db := new Database();
    var made := db.CreateTodo(caller, Some(created));
    var id := made.body.stored.id;
    var page := db.ListTodos(caller, None, None);
    listed := page.value.body.todos;
    foreign := db.UpdateTodo(other, id, Some(edit));
    var _ := db.UpdateTodo(caller, id, Some(edit));
    page := db.ListTodos(caller, None, None);
    edited := page.value.body.todos;
    var _ := db.DeleteTodo(caller, id);
    page := db.ListTodos(caller, None, None);
    emptied := page.value.body.todos;
    again := db.DeleteTodo(caller, id);
  }
}
