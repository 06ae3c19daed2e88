/** The todo records and the store queries the handlers issue against the
    `todos` collection: the owner filter, the id-and-owner match, the field
    update, the removal and skip/limit. */
module Todos {
  import opened JsValues

  /** A stored todo document `{_id, user_id, title, date, done}`; a field the
      client did not send is None. */
  datatype Todo = Todo(id: ObjectId, userId: ObjectId, title: Option<string>, date: Option<string>, done: Option<bool>)

  /** The `todo` object of a request body. `userId` is whatever `user_id`
      the client put there; the handlers never store it. */
  datatype TodoBody = TodoBody(title: Option<string>, date: Option<string>, done: Option<bool>, userId: Option<ObjectId>)

  /** The response shape `{id, title, date, done}` of the record mapper (no owner). */
  datatype FrontendTodo = FrontendTodo(id: ObjectId, title: Option<string>, date: Option<string>, done: Option<bool>)

  /** The record mapper: a stored document always carries its `_id`, so the
      `id` of the response is that identifier. */
  function ToFrontend(t: Todo): FrontendTodo
  {
    FrontendTodo(t.id, t.title, t.date, t.done)
  }

  /** The mapped form of a record does not depend on its owner: the response
      reveals nothing about who owns the record. */
  lemma MapperHidesOwner(t: Todo, other: ObjectId)
    ensures ToFrontend(t.(userId := other)) == ToFrontend(t)
    ensures ToFrontend(t).id == t.id && ToFrontend(t).title == t.title
    ensures ToFrontend(t).date == t.date && ToFrontend(t).done == t.done
  {
  }

  /** The documents of the filter `{user_id: owner}`, in store order. */
  function OwnedBy(s: seq<Todo>, owner: ObjectId): (r: seq<Todo>)
    ensures |r| <= |s|
    ensures forall t :: t in r ==> t in s && t.userId == owner
    ensures forall t :: t in s && t.userId == owner ==> t in r
  {
    if s == [] then []
    else (if s[0].userId == owner then [s[0]] else []) + OwnedBy(s[1..], owner)
  }

  /** Filtering distributes over concatenation, so it keeps the store order. */
  lemma {:induction false} OwnedByAppend(a: seq<Todo>, b: seq<Todo>, owner: ObjectId)
    ensures OwnedBy(a + b, owner) == OwnedBy(a, owner) + OwnedBy(b, owner)
  {
    if a == [] {
      assert a + b == b;
    } else {
      assert (a + b)[1..] == a[1..] + b;
      OwnedByAppend(a[1..], b, owner);
    }
  }

  /** Record identifiers are distinct, as the store's primary key guarantees. */
  predicate UniqueIds(s: seq<Todo>)
  {
    forall i, j :: 0 <= i < |s| && 0 <= j < |s| && i != j ==> s[i].id != s[j].id
  }

  /** The filter `{_id: id, user_id: owner}` of update and delete. */
  predicate Matches(t: Todo, id: ObjectId, owner: ObjectId)
  {
    t.id == id && t.userId == owner
  }

  /** Position of the first document matching both the id and the owner. */
  function FindOwned(s: seq<Todo>, id: ObjectId, owner: ObjectId): (r: Option<nat>)
    ensures r.Some? ==> r.value < |s| && Matches(s[r.value], id, owner)
    ensures r.Some? ==> forall j :: 0 <= j < r.value ==> !Matches(s[j], id, owner)
    ensures r.None? <==> forall j :: 0 <= j < |s| ==> !Matches(s[j], id, owner)
  {
    if s == [] then None
    else if Matches(s[0], id, owner) then Some(0)
    else match FindOwned(s[1..], id, owner)
      case None => None
      case Some(k) => Some(k + 1)
  }

  /** `$set: {title, date, done}` on one document: all three fields replaced
      wholesale, the identifier and the owner kept. */
  function SetFields(t: Todo, b: TodoBody): Todo
  {
    t.(title := b.title, date := b.date, done := b.done)
  }

  function Replaced(s: seq<Todo>, i: nat, b: TodoBody): seq<Todo>
    requires i < |s|
  {
    s[i := SetFields(s[i], b)]
  }

  function Removed(s: seq<Todo>, i: nat): seq<Todo>
    requires i < |s|
  {
    s[..i] + s[i + 1..]
  }

  /** The record an insert stores: the body's three fields, the fresh
      identifier, and the caller as owner whatever `user_id` the body held. */
  function NewTodo(id: ObjectId, caller: ObjectId, body: Option<TodoBody>): (t: Todo)
    ensures t.id == id && t.userId == caller
    ensures body.Some? ==> t.title == body.value.title && t.date == body.value.date && t.done == body.value.done
    ensures body.None? ==> t.title.None? && t.date.None? && t.done.None?
  {
    match body
    case None => Todo(id, caller, None, None, None)
    case Some(b) => Todo(id, caller, b.title, b.date, b.done)
  }

  /** `.skip(start).limit(limit)`: the contiguous run of at most `limit`
      documents that begins at position `start`. */
  function Slice(s: seq<Todo>, start: nat, limit: nat): (r: seq<Todo>)
    ensures |r| <= limit
    ensures start < |s| && limit > 0 ==> |r| > 0
    ensures |r| == if start >= |s| then 0 else if start + limit <= |s| then limit else |s| - start
    ensures forall k :: 0 <= k < |r| ==> start + k < |s| && r[k] == s[start + k]
  {
    var lo := if start <= |s| then start else |s|;
    var hi := if start + limit <= |s| then start + limit else |s|;
    s[lo..hi]
  }

  function Split3(s: seq<Todo>, i: nat): (r: (seq<Todo>, seq<Todo>))
    requires i < |s|
    ensures s == r.0 + [s[i]] + r.1
  {
    (s[..i], s[i + 1..])
  }

  /** An insert adds the record at the end of its owner's listing and
      changes no other owner's listing. */
  lemma {:induction false} InsertIsolation(s: seq<Todo>, t: Todo, other: ObjectId)
    requires other != t.userId
    ensures OwnedBy(s + [t], t.userId) == OwnedBy(s, t.userId) + [t]
    ensures OwnedBy(s + [t], other) == OwnedBy(s, other)
  {
    OwnedByAppend(s, [t], t.userId);
    OwnedByAppend(s, [t], other);
  }

  /** The filter over a store split around one record. */
  lemma {:induction false} OwnedBySplit(pre: seq<Todo>, x: Todo, post: seq<Todo>, owner: ObjectId)
    ensures OwnedBy(pre + [x] + post, owner)
         == OwnedBy(pre, owner) + (if x.userId == owner then [x] else []) + OwnedBy(post, owner)
  {
    OwnedByAppend(pre + [x], post, owner);
    OwnedByAppend(pre, [x], owner);
    assert [x][1..] == [];
  }

  /** An update leaves every other owner's listing as it was, keeps the
      record's owner and identity, and keeps the owner's count. */
  lemma {:induction false} UpdateIsolation(s: seq<Todo>, i: nat, b: TodoBody, other: ObjectId)
    requires i < |s| && other != s[i].userId
    ensures OwnedBy(Replaced(s, i, b), other) == OwnedBy(s, other)
    ensures |OwnedBy(Replaced(s, i, b), s[i].userId)| == |OwnedBy(s, s[i].userId)|
    ensures Replaced(s, i, b)[i].id == s[i].id && Replaced(s, i, b)[i].userId == s[i].userId
  {
    var (pre, post) := Split3(s, i);
    var t := SetFields(s[i], b);
    assert Replaced(s, i, b) == pre + [t] + post;
    OwnedBySplit(pre, t, post, other);
    OwnedBySplit(pre, s[i], post, other);
    OwnedBySplit(pre, t, post, s[i].userId);
    OwnedBySplit(pre, s[i], post, s[i].userId);
  }

  /** A removal leaves every other owner's listing as it was and shortens the
      owner's listing by exactly one. */
  lemma {:induction false} RemoveIsolation(s: seq<Todo>, i: nat, other: ObjectId)
    requires i < |s| && other != s[i].userId
    ensures OwnedBy(Removed(s, i), other) == OwnedBy(s, other)
    ensures |OwnedBy(Removed(s, i), s[i].userId)| == |OwnedBy(s, s[i].userId)| - 1
  {
    var pre, x, post := s[..i], s[i], s[i + 1..];
    assert s == pre + [x] + post;
    assert Removed(s, i) == pre + post;
    OwnedByAppend(pre, post, other);
    OwnedBySplit(pre, x, post, other);
    OwnedByAppend(pre, post, x.userId);
    OwnedBySplit(pre, x, post, x.userId);
  }

  /** A record that exists but belongs to someone else is not found: the
      caller sees the same outcome as for an identifier that does not exist. */
  lemma NonOwnerNotFound(s: seq<Todo>, i: nat, caller: ObjectId)
    requires UniqueIds(s) && i < |s| && s[i].userId != caller
    ensures FindOwned(s, s[i].id, caller).None?
  {
  }

  /** With distinct identifiers the owner's match is the only record with that id. */
  lemma OwnerFinds(s: seq<Todo>, i: nat)
    requires UniqueIds(s) && i < |s|
    ensures FindOwned(s, s[i].id, s[i].userId) == Some(i)
  {
  }

  /** After a removal the identifier is gone for every caller, and the
      remaining identifiers stay distinct. */
  lemma RemovedIsGone(s: seq<Todo>, i: nat, caller: ObjectId)
    requires UniqueIds(s) && i < |s|
    ensures UniqueIds(Removed(s, i))
    ensures FindOwned(Removed(s, i), s[i].id, caller).None?
  {
    var r := Removed(s, i);
    forall j | 0 <= j < |r|
      ensures r[j].id != s[i].id
    {
      if j < i { assert r[j] == s[j]; } else { assert r[j] == s[j + 1]; }
    }
    forall j, k | 0 <= j < |r| && 0 <= k < |r| && j != k
      ensures r[j].id != r[k].id
    {
      var j' := if j < i then j else j + 1;
      var k' := if k < i then k else k + 1;
      assert r[j] == s[j'] && r[k] == s[k'];
    }
  }

  /** Create, update, then delete of one record restores the store it started
      from; in between the record is found by its owner and no one else. */
  lemma Lifecycle(s: seq<Todo>, id: ObjectId, caller: ObjectId, other: ObjectId, created: Option<TodoBody>, edit: TodoBody)
    requires UniqueIds(s) && forall j :: 0 <= j < |s| ==> s[j].id != id
    requires other != caller
    ensures var s1 := s + [NewTodo(id, caller, created)];
      && UniqueIds(s1)
      && FindOwned(s1, id, caller) == Some(|s|)
      && FindOwned(s1, id, other).None?
      && Replaced(s1, |s|, edit)[|s|] == NewTodo(id, caller, Some(edit))
      && Removed(Replaced(s1, |s|, edit), |s|) == s
  {
    var s1 := s + [NewTodo(id, caller, created)];
    assert UniqueIds(s1) by {
      forall a, b | 0 <= a < |s1| && 0 <= b < |s1| && a != b ensures s1[a].id != s1[b].id {
        if a < |s| && b < |s| { assert s1[a] == s[a] && s1[b] == s[b]; }
      }
    }
    OwnerFinds(s1, |s|);
    NonOwnerNotFound(s1, |s|, other);
    assert Replaced(s1, |s|, edit)[..|s|] == s;
  }
}
