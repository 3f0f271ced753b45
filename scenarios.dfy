/**
 * Sequences of requests against one store, stated from the handlers'
 * contracts alone: what a client of the server can rely on.
 */
module Scenarios {
  import opened Nullable
  import opened Int32Text
  import opened Query
  import opened Models
  import opened Jwt
  import opened TodoApi

  /** Logging in with the credentials just registered yields a token for the registered user. */
  method RegisterThenLogin(store: TodoStore, user: User, now: int, later: int, config: Config)
    returns (registered: Reply, loggedIn: Reply)
    requires store.Valid()
    modifies store
    ensures store.Valid()
    ensures registered.OkToken? ==> loggedIn.OkToken?
    ensures registered.OkToken? ==>
      GetUserId(Principal(loggedIn.token)) == GetUserId(Principal(registered.token))
  {
    registered := store.Register(user, now, config);
    loggedIn := store.Login(user, later, config);
    if registered.OkToken? {
      var saved := store.users[|store.users| - 1];
      assert saved in store.users && saved.password == user.password;
      var u :| u in store.users && u.username == user.username && u.password == user.password
        && CreateJwt(u, later, config) == Some(loggedIn.token);
      var i :| 0 <= i < |store.users| && store.users[i] == u;
      assert i == |store.users| - 1;
      GetUserIdOfPrincipal(u, later, config);
    }
  }

  /** A second registration of the same username is refused and changes nothing. */
  method RegisterTwice(store: TodoStore, user: User, again: User, now: int, config: Config)
    returns (first: Reply, second: Reply)
    requires store.Valid() && again.username == user.username
    modifies store
    ensures store.Valid()
    ensures first.OkToken? ==> second == BadRequest(UserExists)
    ensures second.BadRequest? ==> store.users == old(store.users) || first.OkToken? || first.ServerError?
  {
    first := store.Register(user, now, config);
    if first.OkToken? {
      assert store.users[|store.users| - 1] in store.users;
    }
    second := store.Register(again, now, config);
  }

  /** Deleting the same item twice: the second request finds nothing. */
  method DeleteTwice(store: TodoStore, id: Int32, principal: seq<Claim>) returns (first: Reply, second: Reply)
    requires store.Valid()
    modifies store
    ensures store.Valid()
    ensures second == NotFound(TaskNotFound)
    ensures first.NotFound? ==> store.items == old(store.items)
  {
    first := store.DeleteItem(id, principal);
    second := store.DeleteItem(id, principal);
  }

  /** An item created by one user never appears in another user's list. */
  method OthersCannotSee(store: TodoStore, owner: seq<Claim>, other: seq<Claim>, item: Item)
    returns (created: Reply, listed: Reply)
    requires store.Valid() && GetUserId(owner) != GetUserId(other)
    modifies store
    ensures store.Valid()
    ensures created.Created? ==> created.item in store.items
    ensures created.Created? ==> listed.OkItems? && created.item !in listed.items
  {
    created := store.CreateItem(item, owner);
    listed := store.ListItems(other);
    if created.Created? {
      assert store.items[|store.items| - 1] == created.item;
      ForeignItemNotListed(store.items, created.item, GetUserId(other));
    }
  }

  /** An item created by one user can be neither updated nor deleted by another user. */
  method OthersCannotChange(store: TodoStore, owner: seq<Claim>, other: seq<Claim>, item: Item, patch: Item)
    returns (created: Reply, updated: Reply, deleted: Reply)
    requires store.Valid() && GetUserId(owner) != GetUserId(other)
    modifies store
    ensures store.Valid()
    ensures created.Created? ==> updated == NotFound(TaskNotFound) && deleted == NotFound(TaskNotFound)
    ensures created.Created? ==> store.items == old(store.items) + [created.item]
  {
    created := store.CreateItem(item, owner);
    var id := if created.Created? then created.item.id else item.id;
    if created.Created? {
      var n := |store.items| - 1;
      assert store.items[n] == created.item;
      ForeignItemUnreachable(store.items, store.nextItemId, n, GetUserId(other));
      updated := store.UpdateItem(id, patch, other);
      ForeignItemUnreachable(store.items, store.nextItemId, n, GetUserId(other));
      deleted := store.DeleteItem(id, other);
    } else {
      updated := store.UpdateItem(id, patch, other);
      deleted := store.DeleteItem(id, other);
    }
  }

  /**
   * Registering a new username without a client key, while the counter has
   * room: the user is saved under the next key and the token's principal
   * resolves to that key.
   */
  method RegisterNewUser(store: TodoStore, user: User, now: int, config: Config)
    returns (r: Reply, principal: seq<Claim>)
    requires config.signingKeyUsable && store.Valid()
    requires user.id == 0 && !UsernameTaken(store.users, user.username) && store.nextUserId <= MaxInt32
    modifies store
    ensures store.Valid() && r.OkToken?
    ensures store.users == old(store.users) + [user.(id := old(store.nextUserId))]
    ensures store.nextUserId == old(store.nextUserId) + 1
    ensures store.items == old(store.items) && store.nextItemId == old(store.nextItemId)
    ensures GetUserId(principal) == old(store.nextUserId)
  {
    r := store.Register(user, now, config);
    principal := Principal(r.token);
  }

  const Alice: User := User(1, Some("alice"), Some("pw1"))
  const Bob: User := User(2, Some("bob"), Some("pw2"))
  const Milk: Item := Item(1, Some("buy milk"), Some(false), 1)

  /** First part of the walk-through: alice registers on an empty server and adds "buy milk". */
  method AliceAddsMilk(store: TodoStore, config: Config, now: int) returns (aliceP: seq<Claim>)
    requires config.signingKeyUsable
    requires store.Valid() && store.users == [] && store.items == [] && store.nextUserId == 1 && store.nextItemId == 1
    modifies store
    ensures store.Valid() && store.users == [Alice] && store.items == [Milk]
    ensures store.nextUserId == 2 && store.nextItemId == 2
    ensures GetUserId(aliceP) == Alice.id
  {
    var alice;
    alice, aliceP := RegisterNewUser(store, User(0, Some("alice"), Some("pw1")), now, config);
    var created := store.CreateItem(Item(0, Some("buy milk"), Some(false), 0), aliceP);
  }

  /** Second part of the walk-through: bob registers. */
  method BobRegisters(store: TodoStore, config: Config, now: int) returns (bobP: seq<Claim>)
    requires config.signingKeyUsable
    requires store.Valid() && store.users == [Alice] && store.items == [Milk]
    requires store.nextUserId == 2 && store.nextItemId == 2
    modifies store
    ensures store.Valid() && store.users == [Alice, Bob] && store.items == [Milk] && store.nextItemId == 2
    ensures GetUserId(bobP) == Bob.id
  {
    assert !UsernameTaken(store.users, Some("bob")) by {
      assert Alice.username != Some("bob");
    }
    var bob;
    bob, bobP := RegisterNewUser(store, User(0, Some("bob"), Some("pw2")), now, config);
  }

  /** Third part: each user lists the items; alice sees "buy milk", bob sees nothing. */
  method BothList(store: TodoStore, aliceP: seq<Claim>, bobP: seq<Claim>) returns (aliceItems: Reply, bobItems: Reply)
    requires GetUserId(aliceP) == Alice.id && GetUserId(bobP) == Bob.id && store.items == [Milk]
    ensures aliceItems == OkItems([Milk])
    ensures bobItems == OkItems([])
  {
    aliceItems := store.ListItems(aliceP);
    bobItems := store.ListItems(bobP);
    assert Where([Milk], OwnedBy(Bob.id)) == [] + Where([Milk][1..], OwnedBy(Bob.id));
  }

  /** Fourth part: alice marks the item complete and lists it again. */
  method AliceCompletes(store: TodoStore, aliceP: seq<Claim>) returns (updated: Reply, afterUpdate: Reply)
    requires store.Valid() && GetUserId(aliceP) == Alice.id && store.items == [Milk]
    modifies store
    ensures store.Valid() && store.items == [Milk.(isComplete := Some(true))]
    ensures updated == NoContent
    ensures afterUpdate == OkItems([Milk.(isComplete := Some(true))])
  {
    assert First([Milk], OwnedWithId(1, Alice.id)) == Some(0);
    updated := store.UpdateItem(1, Item(0, None, Some(true), 0), aliceP);
    afterUpdate := store.ListItems(aliceP);
  }

  /**
   * The walk-through of the design: alice registers and adds "buy milk"; she
   * sees exactly that item, bob sees nothing; alice completes it; bob cannot
   * delete it.
   */
  method Walkthrough(config: Config, now: int)
    returns (aliceItems: Reply, bobItems: Reply, updated: Reply, afterUpdate: Reply, bobDelete: Reply)
    requires config.signingKeyUsable
    ensures aliceItems == OkItems([Item(1, Some("buy milk"), Some(false), 1)])
    ensures bobItems == OkItems([])
    ensures updated == NoContent
    ensures afterUpdate == OkItems([Item(1, Some("buy milk"), Some(true), 1)])
    ensures bobDelete == NotFound(TaskNotFound)
  {
    var store := new TodoStore();
    var aliceP := AliceAddsMilk(store, config, now);
    var bobP;
    bobP := BobRegisters(store, config, now);
    aliceItems, bobItems := BothList(store, aliceP, bobP);
    updated, afterUpdate := AliceCompletes(store, aliceP);
    ForeignItemUnreachable(store.items, store.nextItemId, 0, Bob.id);
    bobDelete := store.DeleteItem(1, bobP);
  }
}
