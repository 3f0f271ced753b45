/**
 * The server's endpoints over its in-memory view of the database: the user
 * table and the item table as sequences in store order, and the two
 * auto-increment counters. Each handler is one atomic step on the store; the
 * request's identity is the claims the bearer middleware attached to it.
 */
module TodoApi {
  import opened Nullable
  import opened Int32Text
  import opened Query
  import opened Models
  import opened Jwt

  const UserExists: string := "User already exists"
  const TaskNotFound: string := "Task not found or unauthorized"
  const DeletedSuccessfully: string := "Deleted successfully"

  /** The `Results.*` values the handlers return. */
  datatype Reply =
    | OkToken(token: Token)                    // 200 { token }
    | OkItems(items: seq<Item>)                // 200 [ item, ... ]
    | OkDeleted(message: string, item: Item)   // 200 { Message, Item }
    | Created(location: string, item: Item)    // 201, Location header
    | NoContent                                // 204
    | BadRequest(message: string)              // 400
    | Unauthorized                             // 401
    | NotFound(message: string)                // 404
    | ServerError                              // 500: an exception from the database or the token library

  function UsernameIs(name: Option<string>): User -> bool
  {
    (u: User) => u.username == name
  }

  function CredentialsMatch(name: Option<string>, password: Option<string>): User -> bool
  {
    (u: User) => u.username == name && u.password == password
  }

  function OwnedBy(uid: int): Item -> bool
  {
    (i: Item) => i.userId == uid
  }

  function OwnedWithId(id: int, uid: int): Item -> bool
  {
    (i: Item) => i.id == id && i.userId == uid
  }

  /** The `Location` of a created item, `/items/{id}`. */
  function ItemLocation(id: Int32): string
  {
    "/items/" + ToDecimal(id)
  }

  /** The PUT handler's patch: `Name` and `IsComplete` are taken from `input` where it gives them. */
  function Patch(item: Item, input: Item): (r: Item)
    ensures r.id == item.id && r.userId == item.userId
    ensures input.name.Some? ==> r.name == input.name
    ensures input.name.None? ==> r.name == item.name
    ensures input.isComplete.Some? ==> r.isComplete == input.isComplete
    ensures input.isComplete.None? ==> r.isComplete == item.isComplete
  {
    item.(name := CoalesceOption(input.name, item.name),
          isComplete := CoalesceOption(input.isComplete, item.isComplete))
  }

  /** Patching twice with the same input is the same as patching once. */
  lemma PatchIdempotent(item: Item, input: Item)
    ensures Patch(Patch(item, input), input) == Patch(item, input)
  {
  }

  /**
   * The primary key the database stores for a new row, and the counter after it.
   * A key of 0 (the CLR default) is generated from the auto-increment counter;
   * any other key the client sent is stored as given and moves the counter past it.
   * `None` is the failed `SaveChangesAsync`: a duplicate key, or a counter past `int`.
   */
  function NewId(requested: Int32, taken: bool, next: int): (r: Option<(Int32, int)>)
    requires 1 <= next
    ensures r.None? <==> (requested == 0 && next > MaxInt32) || (requested != 0 && taken)
    ensures r.Some? && requested == 0 ==> r.value.0 == next
    ensures r.Some? && requested != 0 ==> r.value.0 == requested
    ensures r.Some? ==> r.value.0 < r.value.1 && next <= r.value.1
  {
    if requested == 0 then
      if next <= MaxInt32 then Some((next, next + 1)) else None
    else if taken then None
    else Some((requested, if next <= requested then requested + 1 else next))
  }

  /** Some user already has this username: the lookup at the start of `/register`. */
  predicate UsernameTaken(users: seq<User>, name: Option<string>)
  {
    exists u :: u in users && u.username == name
  }

  predicate UserKeyTaken(users: seq<User>, id: int)
  {
    exists u :: u in users && u.id == id
  }

  predicate ItemKeyTaken(items: seq<Item>, id: int)
  {
    exists x :: x in items && x.id == id
  }

  ghost predicate UniqueUsernames(users: seq<User>)
  {
    forall i, j :: 0 <= i < j < |users| ==> users[i].username != users[j].username
  }

  /** The user table's invariant: unique usernames, unique keys, every key below the counter. */
  ghost predicate UsersValid(users: seq<User>, next: int)
  {
    && UniqueUsernames(users)
    && (forall i, j :: 0 <= i < j < |users| ==> users[i].id != users[j].id)
    && (forall i :: 0 <= i < |users| ==> users[i].id < next)
  }

  /** The item table's invariant: unique keys, every key below the counter. */
  ghost predicate ItemsValid(items: seq<Item>, next: int)
  {
    && (forall i, j :: 0 <= i < j < |items| ==> items[i].id != items[j].id)
    && (forall i :: 0 <= i < |items| ==> items[i].id < next)
  }

  /** A key at or above the counter is not in use. */
  lemma CounterKeyFree(items: seq<Item>, next: int, id: int)
    requires ItemsValid(items, next) && next <= id
    ensures !ItemKeyTaken(items, id)
  {
    forall x | x in items ensures x.id != id {
      var i :| 0 <= i < |items| && items[i] == x;
      assert items[i].id < next;
    }
  }

  lemma CounterUserKeyFree(users: seq<User>, next: int, id: int)
    requires UsersValid(users, next) && next <= id
    ensures !UserKeyTaken(users, id)
  {
    forall u | u in users ensures u.id != id {
      var i :| 0 <= i < |users| && users[i] == u;
      assert users[i].id < next;
    }
  }

  /** Registering a user under a new username and a free key keeps the user table valid. */
  lemma UserAppendValid(users: seq<User>, next: int, u: User, next': int)
    requires UsersValid(users, next)
    requires !UsernameTaken(users, u.username) && !UserKeyTaken(users, u.id)
    requires next <= next' && u.id < next'
    ensures UsersValid(users + [u], next')
  {
    var s := users + [u];
    forall i, j | 0 <= i < j < |s|
      ensures s[i].username != s[j].username && s[i].id != s[j].id
    {
      if j == |users| {
        assert s[i] in users;
      }
    }
  }

  /** Adding an item under a free key keeps the item table valid. */
  lemma ItemAppendValid(items: seq<Item>, next: int, x: Item, next': int)
    requires ItemsValid(items, next) && !ItemKeyTaken(items, x.id)
    requires next <= next' && x.id < next'
    ensures ItemsValid(items + [x], next')
  {
    var s := items + [x];
    forall i, j | 0 <= i < j < |s|
      ensures s[i].id != s[j].id
    {
      if j == |items| {
        assert s[i] in items;
      }
    }
  }

  /** Replacing an item by one with the same key keeps the item table valid. */
  lemma ItemUpdateValid(items: seq<Item>, next: int, k: nat, x: Item)
    requires ItemsValid(items, next) && k < |items| && x.id == items[k].id
    ensures ItemsValid(items[k := x], next)
  {
  }

  /** Removing an item keeps the item table valid, and its key is then free. */
  lemma ItemRemoveValid(items: seq<Item>, next: int, k: nat)
    requires ItemsValid(items, next) && k < |items|
    ensures ItemsValid(RemoveAt(items, k), next)
    ensures !ItemKeyTaken(RemoveAt(items, k), items[k].id)
  {
    var r := RemoveAt(items, k);
    forall i, j | 0 <= i < j < |r|
      ensures r[i].id != r[j].id
    {
      var i', j' := if i < k then i else i + 1, if j < k then j else j + 1;
      assert r[i] == items[i'] && r[j] == items[j'];
    }
    forall x | x in r ensures x.id != items[k].id {
      var j :| 0 <= j < |r| && r[j] == x;
      if j < k {
        assert r[j] == items[j];
      } else {
        assert r[j] == items[j + 1];
      }
    }
  }

  /** Nobody else's item is ever in a caller's list. */
  lemma ForeignItemNotListed(items: seq<Item>, x: Item, uid: int)
    requires x.userId != uid
    ensures x !in Where(items, OwnedBy(uid))
  {
  }

  /** With unique keys, the owner-scoped lookup never finds another user's item under its key. */
  lemma ForeignItemUnreachable(items: seq<Item>, next: int, k: nat, uid: int)
    requires ItemsValid(items, next) && k < |items| && items[k].userId != uid
    ensures First(items, OwnedWithId(items[k].id, uid)).None?
  {
    forall j | 0 <= j < |items| ensures !OwnedWithId(items[k].id, uid)(items[j]) {
      if j < k {
        assert items[j].id != items[k].id;
      } else if j > k {
        assert items[k].id != items[j].id;
      }
    }
  }

  class TodoStore {
    var users: seq<User>
    var items: seq<Item>
    var nextUserId: int
    var nextItemId: int

    /** The store's invariant: both tables valid, both counters positive. */
    ghost predicate Valid()
      reads this
    {
      1 <= nextUserId && 1 <= nextItemId && UsersValid(users, nextUserId) && ItemsValid(items, nextItemId)
    }

    /** An empty database whose counters start at 1. */
    constructor ()
      ensures Valid()
      ensures users == [] && items == [] && nextUserId == 1 && nextItemId == 1
    {
      users, items := [], [];
      nextUserId, nextItemId := 1, 1;
    }

    /** `POST /login`: a token for the first user with exactly this username and password. */
    method Login(login: User, now: int, config: Config) returns (r: Reply)
      ensures r.Unauthorized? <==>
        !exists u :: u in users && u.username == login.username && u.password == login.password
      ensures r.OkToken? ==>
        exists u :: u in users && u.username == login.username && u.password == login.password
          && CreateJwt(u, now, config) == Some(r.token)
      ensures r.OkToken? || r.Unauthorized? || (r.ServerError? && !config.signingKeyUsable)
    {
      match First(users, CredentialsMatch(login.username, login.password))
      case None =>
        r := Unauthorized;
      case Some(k) =>
        assert users[k] in users;
        match CreateJwt(users[k], now, config)
        case Some(t) => r := OkToken(t);
        case None => r := ServerError;
    }

    /**
     * `POST /register`: rejects a username already taken, otherwise saves the
     * user under its new key and returns a token for it. When the token cannot
     * be signed the user is already saved and the reply is a server error.
     */
    method Register(user: User, now: int, config: Config) returns (r: Reply)
      requires Valid()
      modifies this
      ensures Valid()
      ensures items == old(items) && nextItemId == old(nextItemId)
      ensures UsernameTaken(old(users), user.username) ==>
        r == BadRequest(UserExists) && users == old(users) && nextUserId == old(nextUserId)
      ensures !UsernameTaken(old(users), user.username) ==>
        match NewId(user.id, UserKeyTaken(old(users), user.id), old(nextUserId))
        case None =>
          r == ServerError && users == old(users) && nextUserId == old(nextUserId)
        case Some(key) =>
          && users == old(users) + [user.(id := key.0)]
          && nextUserId == key.1
          && r == (if config.signingKeyUsable then OkToken(CreateJwt(user.(id := key.0), now, config).value) else ServerError)
      ensures r.OkToken? ==> |users| == |old(users)| + 1 && users[|users| - 1].username == user.username
      ensures r.OkToken? ==> GetUserId(Principal(r.token)) == users[|users| - 1].id
    {
      match First(users, UsernameIs(user.username))
      case Some(k) =>
        assert users[k] in users;
        r := BadRequest(UserExists);
      case None =>
        assert !UsernameTaken(users, user.username) by {
          forall u | u in users ensures u.username != user.username {
            var j :| 0 <= j < |users| && users[j] == u;
            assert !UsernameIs(user.username)(users[j]);
          }
        }
        var taken := UserKeyTaken(users, user.id);
        match NewId(user.id, taken, nextUserId)
        case None =>
          r := ServerError;
        case Some(key) =>
          var saved := user.(id := key.0);
          if user.id == 0 {
            CounterUserKeyFree(users, nextUserId, saved.id);
          }
          UserAppendValid(users, nextUserId, saved, key.1);
          users := users + [saved];
          nextUserId := key.1;
          if config.signingKeyUsable {
            r := OkToken(CreateJwt(saved, now, config).value);
            GetUserIdOfPrincipal(saved, now, config);
          } else {
            r := ServerError;
          }
    }

    /** `GET /items`: the caller's items, in store order, and no others. */
    method ListItems(principal: seq<Claim>) returns (r: Reply)
      ensures r.OkItems? && r.items == Where(items, OwnedBy(GetUserId(principal)))
      ensures forall i :: 0 <= i < |r.items| ==> r.items[i].userId == GetUserId(principal)
      ensures forall x :: x in items && x.userId == GetUserId(principal) ==> x in r.items
    {
      var uid := GetUserId(principal);
      r := OkItems(Where(items, OwnedBy(uid)));
      forall i | 0 <= i < |r.items| ensures r.items[i].userId == uid {
        assert OwnedBy(uid)(r.items[i]);
      }
      forall x | x in items && x.userId == uid ensures x in r.items {
        var j :| 0 <= j < |items| && items[j] == x;
        assert OwnedBy(uid)(items[j]);
      }
    }

    /**
     * `POST /items`: the item is saved under a new key with the caller as its
     * owner, whatever owner the client sent; nothing else changes.
     */
    method CreateItem(item: Item, principal: seq<Claim>) returns (r: Reply)
      requires Valid()
      modifies this
      ensures Valid()
      ensures users == old(users) && nextUserId == old(nextUserId)
      ensures
        match NewId(item.id, ItemKeyTaken(old(items), item.id), old(nextItemId))
        case None =>
          r == ServerError && items == old(items) && nextItemId == old(nextItemId)
        case Some(key) =>
          && items == old(items) + [Item(key.0, item.name, item.isComplete, GetUserId(principal))]
          && nextItemId == key.1
          && r == Created(ItemLocation(key.0), Item(key.0, item.name, item.isComplete, GetUserId(principal)))
      ensures r.Created? ==>
        Where(items, OwnedBy(GetUserId(principal))) == Where(old(items), OwnedBy(GetUserId(principal))) + [r.item]
      ensures forall v: Int32 :: v != GetUserId(principal) ==>
        Where(items, OwnedBy(v)) == Where(old(items), OwnedBy(v))
    {
      var uid := GetUserId(principal);
      var tagged := item.(userId := uid);
      var taken := ItemKeyTaken(items, item.id);
      match NewId(item.id, taken, nextItemId)
      case None =>
        r := ServerError;
      case Some(key) =>
        var created := tagged.(id := key.0);
        if item.id == 0 {
          CounterKeyFree(items, nextItemId, created.id);
        }
        ItemAppendValid(items, nextItemId, created, key.1);
        WhereAppend(items, created, OwnedBy(uid));
        forall v: Int32 | v != uid
          ensures Where(items + [created], OwnedBy(v)) == Where(items, OwnedBy(v))
        {
          WhereAppend(items, created, OwnedBy(v));
        }
        items := items + [created];
        nextItemId := key.1;
        r := Created(ItemLocation(created.id), created);
    }

    /**
     * `PUT /items/{id}`: patches the caller's item with that key; the same
     * not-found reply whether the item is missing or someone else's.
     */
    method UpdateItem(id: Int32, input: Item, principal: seq<Claim>) returns (r: Reply)
      requires Valid()
      modifies this
      ensures Valid()
      ensures users == old(users) && nextUserId == old(nextUserId) && nextItemId == old(nextItemId)
      ensures
        match First(old(items), OwnedWithId(id, GetUserId(principal)))
        case None => r == NotFound(TaskNotFound) && items == old(items)
        case Some(k) => r == NoContent && items == old(items)[k := Patch(old(items)[k], input)]
      ensures r == NotFound(TaskNotFound) <==>
        !exists x :: x in old(items) && x.id == id && x.userId == GetUserId(principal)
      ensures r.NoContent? || r == NotFound(TaskNotFound)
      ensures |items| == |old(items)|
      ensures forall j :: 0 <= j < |items| && !(old(items)[j].id == id && old(items)[j].userId == GetUserId(principal)) ==>
        items[j] == old(items)[j]
      ensures forall v: Int32 :: v != GetUserId(principal) ==>
        Where(items, OwnedBy(v)) == Where(old(items), OwnedBy(v))
    {
      var uid := GetUserId(principal);
      match First(items, OwnedWithId(id, uid))
      case None =>
        r := NotFound(TaskNotFound);
        forall x | x in items ensures !(x.id == id && x.userId == uid) {
          var j :| 0 <= j < |items| && items[j] == x;
          assert !OwnedWithId(id, uid)(items[j]);
        }
      case Some(k) =>
        assert OwnedWithId(id, uid)(items[k]) && items[k] in items;
        var patched := Patch(items[k], input);
        forall j | 0 <= j < |items| && j != k ensures items[j].id != id {
          if j < k {
            assert items[j].id != items[k].id;
          } else {
            assert items[k].id != items[j].id;
          }
        }
        ItemUpdateValid(items, nextItemId, k, patched);
        forall v: Int32 | v != uid
          ensures Where(items[k := patched], OwnedBy(v)) == Where(items, OwnedBy(v))
        {
          WhereUpdate(items, k, patched, OwnedBy(v));
        }
        items := items[k := patched];
        r := NoContent;
    }

    /**
     * `DELETE /items/{id}`: removes the caller's item with that key and returns
     * it; the same not-found reply whether the item is missing or someone else's.
     */
    method DeleteItem(id: Int32, principal: seq<Claim>) returns (r: Reply)
      requires Valid()
      modifies this
      ensures Valid()
      ensures users == old(users) && nextUserId == old(nextUserId) && nextItemId == old(nextItemId)
      ensures
        match First(old(items), OwnedWithId(id, GetUserId(principal)))
        case None => r == NotFound(TaskNotFound) && items == old(items)
        case Some(k) => r == OkDeleted(DeletedSuccessfully, old(items)[k]) && items == RemoveAt(old(items), k)
      ensures r == NotFound(TaskNotFound) <==>
        !exists x :: x in old(items) && x.id == id && x.userId == GetUserId(principal)
      ensures r.OkDeleted? || r == NotFound(TaskNotFound)
      ensures forall x :: x in items ==> !(x.id == id && x.userId == GetUserId(principal))
      ensures forall v: Int32 :: v != GetUserId(principal) ==>
        Where(items, OwnedBy(v)) == Where(old(items), OwnedBy(v))
    {
      var uid := GetUserId(principal);
      match First(items, OwnedWithId(id, uid))
      case None =>
        r := NotFound(TaskNotFound);
        forall x | x in items ensures !(x.id == id && x.userId == uid) {
          var j :| 0 <= j < |items| && items[j] == x;
          assert !OwnedWithId(id, uid)(items[j]);
        }
      case Some(k) =>
        var removed := items[k];
        assert OwnedWithId(id, uid)(removed) && removed in items;
        ItemRemoveValid(items, nextItemId, k);
        forall v: Int32 | v != uid
          ensures Where(RemoveAt(items, k), OwnedBy(v)) == Where(items, OwnedBy(v))
        {
          WhereRemoveAt(items, k, OwnedBy(v));
        }
        items := RemoveAt(items, k);
        r := OkDeleted(DeletedSuccessfully, removed);
    }
  }
}
