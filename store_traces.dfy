/**
 * Whole-system traces over fresh objects: the borrowing walk-through, the
 * cache fast path, stale-response suppression between two fetches, and the
 * interleaving where a cache hit does not supersede a fetch in flight.
 */
module StoreTraces {
  import opened Wrappers
  import opened Books
  import opened ClientStore
  import opened EventBusService
  import opened MockBooksService
  import opened BooksStore

  const User1: Client := Client("user1", "Paweł")
  const User2: Client := Client("user2", "Kasia")
  const B1: Book := Book("b1", "Pan Tadeusz")
  const B2: Book := Book("b2", "Lalka")
  const B3: Book := Book("b3", "Ballady i romanse")

  /** A store wired to a fresh client slot and a fresh bus. */
  method NewStore() returns (clients: ClientSlot, bus: EventBus, store: BooksStore)
    ensures fresh(clients) && fresh(bus) && fresh(store)
    ensures bus.handlers == [store.onUserChanged]
    ensures store.Valid() && store.clients == clients
    ensures store.Current() == EmptySnapshot && store.cache == map[] && store.lastRequestedUserId == None
  {
    clients := new ClientSlot();
    bus := new EventBus();
    store := new BooksStore(clients, bus, 0);
  }

  /** Selecting user1 on a new store and completing its fetch shows user1's seed lists. */
  method LoadUser1() returns (clients: ClientSlot, bus: EventBus, store: BooksStore)
    ensures fresh(clients) && fresh(bus) && fresh(store)
    ensures bus.handlers == [store.onUserChanged]
    ensures store.Valid() && store.clients == clients && clients.current == Some(User1)
    ensures store.Current() == Snapshot([B1], [B2, B3])
    ensures store.cache == map["user1" := Snapshot([B1], [B2, B3])]
  {
    clients, bus, store := NewStore();
    var request := SelectClient(clients, bus, store, Some(User1));
    store.CompleteFetch(request.value);
  }

  /** With user1 freshly loaded, borrowing b2 succeeds and moves it from available to borrowed. */
  method BorrowB2(store: BooksStore)
    requires store.Valid() && store.Current() == Snapshot([B1], [B2, B3])
    requires store.clients.current == Some(User1)
    modifies store
    ensures store.Valid() && store.Current() == Snapshot([B1, B2], [B3])
    ensures store.cache == old(store.cache)["user1" := Snapshot([B1, B2], [B3])]
  {
    assert !HasId([B1], "b2") by { assert "b1"[1] != "b2"[1]; }
    var ok := store.AddBorrowed(B2);
    assert [B2, B3][1..] == [B3];
    assert "b3" != "b2" by { assert "b3"[1] != "b2"[1]; }
    assert WithoutId([B3], "b2") == [B3];
  }

  /** With b1, b2 borrowed and b3 available, borrowing b3 succeeds and fills the quota. */
  method BorrowB3(store: BooksStore)
    requires store.Valid() && store.Current() == Snapshot([B1, B2], [B3])
    modifies store
    ensures store.Valid() && store.Current() == Snapshot([B1, B2, B3], [])
  {
    assert !HasId([B1, B2], "b3") by { assert "b1"[1] != "b3"[1] && "b2"[1] != "b3"[1]; }
    var ok := store.AddBorrowed(B3);
  }

  /** With b1, b2, b3 borrowed and nothing available, returning b1 makes it the only available book. */
  method ReturnB1(store: BooksStore)
    requires store.Valid() && store.Current() == Snapshot([B1, B2, B3], [])
    modifies store
    ensures store.Valid() && store.Current() == Snapshot([B2, B3], [B1])
  {
    assert HasId([B1, B2, B3], "b1") by { assert [B1, B2, B3][0].id == "b1"; }
    var ok := store.ReturnBorrowed(B1);
    assert "b2" != "b1" by { assert "b2"[1] != "b1"[1]; }
    assert "b3" != "b1" by { assert "b3"[1] != "b1"[1]; }
    assert [B1, B2, B3][1..] == [B2, B3];
    assert WithoutId([B1, B2, B3], "b1") == [B2, B3];
  }

  /**
   * Loading user1 shows b1 borrowed and b2, b3 available; borrowing b2 and b3
   * reaches the limit, any fourth borrow is refused, and returning b1 leaves
   * b2, b3 borrowed and b1 available.
   */
  method BorrowWalkthrough(fourth: Book)
    returns (loaded: Snapshot, full: Snapshot, limitReached: bool, fourthAccepted: bool, afterReturn: Snapshot)
    ensures loaded == Snapshot([B1], [B2, B3])
    ensures full == Snapshot([B1, B2, B3], [])
    ensures limitReached && !fourthAccepted
    ensures afterReturn == Snapshot([B2, B3], [B1])
  {
    var clients, bus, store := LoadUser1();
    loaded := store.Current();
    BorrowB2(store);
    BorrowB3(store);
    full := store.Current();
    limitReached := store.LimitReached();
    fourthAccepted := store.AddBorrowed(fourth);
    ReturnB1(store);
    afterReturn := store.Current();
  }

  /**
   * After user1 is loaded and changed by a borrow, switching to user2 and
   * back to user1 issues no request and shows user1 exactly as it was left.
   */
  method CacheFastPath() returns (secondRequest: Option<string>, shown: Snapshot)
    ensures secondRequest == None
    ensures shown == Snapshot([B1, B2], [B3])
  {
    var clients, bus, store := LoadUser1();
    BorrowB2(store);
    assert store.cache == map["user1" := Snapshot([B1, B2], [B3])];

    assert "user2" != "user1" by { assert "user2"[4] != "user1"[4]; }
    var request := SelectClient(clients, bus, store, Some(User2));
    assert request == Some("user2");
    store.CompleteFetch("user2");
    assert store.cache["user1"] == Snapshot([B1, B2], [B3]);
    secondRequest := SelectClient(clients, bus, store, Some(User1));
    shown := store.Current();
  }

  /**
   * A response superseded by a later fetch is discarded: user1 is requested,
   * then user2; user1's response changes nothing and user2's commits.
   */
  method StaleFetchDiscarded() returns (afterStale: Snapshot, afterFresh: Snapshot, staleCached: bool)
    ensures afterStale == EmptySnapshot
    ensures afterFresh == GetBooksForUser("user2")
    ensures !staleCached
  {
    var clients, bus, store := NewStore();
    var first := SelectClient(clients, bus, store, Some(User1));
    var second := SelectClient(clients, bus, store, Some(User2));
    assert "user2" != "user1" by { assert "user2"[4] != "user1"[4]; }
    store.CompleteFetch(first.value);
    afterStale := store.Current();
    store.CompleteFetch(second.value);
    afterFresh := store.Current();
    staleCached := "user1" in store.cache;
  }

  /**
   * The cache-hit branch of `Reload` leaves the pending-request marker alone,
   * so a fetch still in flight is not superseded by switching to a cached
   * client: user2 is loaded, user1 is requested, user2 is selected again
   * (served from the cache), and then user1's response arrives and replaces
   * the lists on show while user2 is the selected client.
   */
  method StaleFetchCommitsAfterCacheHit() returns (selected: Option<Client>, shown: Snapshot)
    ensures selected == Some(User2)
    ensures shown == GetBooksForUser("user1")
    ensures shown != GetBooksForUser("user2")
  {
    var clients, bus, store := NewStore();
    var request := SelectClient(clients, bus, store, Some(User2));
    store.CompleteFetch(request.value);
    assert "user1" != "user2" by { assert "user1"[4] != "user2"[4]; }
    var inFlight := SelectClient(clients, bus, store, Some(User1));
    var none := SelectClient(clients, bus, store, Some(User2));
    store.CompleteFetch(inFlight.value);
    selected := clients.current;
    shown := store.Current();
    assert shown.borrowed[0].id != GetBooksForUser("user2").borrowed[0].id by {
      assert "b1"[1] != "b4"[1];
    }
  }

  /**
   * Clearing the client also resets the pending-request marker: user1 is
   * requested, the selection is cleared, and user1's response then changes
   * nothing and is not cached.
   */
  method StaleFetchDiscardedAfterClear() returns (afterStale: Snapshot, staleCached: bool)
    ensures afterStale == EmptySnapshot
    ensures !staleCached
  {
    var clients, bus, store := NewStore();
    var request := SelectClient(clients, bus, store, Some(User1));
    var none := SelectClient(clients, bus, store, None);
    store.CompleteFetch(request.value);
    afterStale := store.Current();
    staleCached := "user1" in store.cache;
  }

  /**
   * The same interleaving as `StaleFetchCommitsAfterCacheHit`, with the store's
   * handler running `ReloadAsIntended`: the cache hit on user2 supersedes the
   * fetch for user1, whose response then changes nothing.
   */
  method StaleFetchDiscardedAfterCacheHitIntended() returns (selected: Option<Client>, shown: Snapshot)
    ensures selected == Some(User2)
    ensures shown == GetBooksForUser("user2")
  {
    var clients, bus, store := NewStore();
    clients.SetClient(Some(User2));
    var request := store.ReloadAsIntended();
    store.CompleteFetch(request.value);
    assert "user1" != "user2" by { assert "user1"[4] != "user2"[4]; }
    clients.SetClient(Some(User1));
    var inFlight := store.ReloadAsIntended();
    clients.SetClient(Some(User2));
    var none := store.ReloadAsIntended();
    store.CompleteFetch(inFlight.value);
    selected := clients.current;
    shown := store.Current();
  }

  /**
   * user1 is loaded, user2 is requested, user1 is selected again (served from
   * the cache), and then user2's response arrives: the lists show user2's
   * books while user1 is selected.
   */
  method StaleCommitWhileUser1Selected() returns (clients: ClientSlot, bus: EventBus, store: BooksStore)
    ensures fresh(clients) && fresh(bus) && fresh(store)
    ensures store.Valid() && store.clients == clients && clients.current == Some(User1)
    ensures store.Current() == GetBooksForUser("user2")
  {
    clients, bus, store := LoadUser1();
    assert "user2" != "user1" by { assert "user2"[4] != "user1"[4]; }
    var inFlight := SelectClient(clients, bus, store, Some(User2));
    assert inFlight == Some("user2");
    var none := SelectClient(clients, bus, store, Some(User1));
    store.CompleteFetch("user2");
  }

  /** With user2's seed lists on show, borrowing b6 persists the result under the selected client. */
  method BorrowB6(store: BooksStore)
    requires store.Valid() && store.Current() == GetBooksForUser("user2")
    requires store.clients.current.Some?
    modifies store
    ensures store.clients.current.value.id in store.cache
    ensures store.cache[store.clients.current.value.id] == Snapshot(
      [Book("b4", "Zemsta"), Book("b5", "Krzyżacy"), Book("b6", "Ferdydurke")],
      [Book("b7", "Solaris")])
  {
    var b4, b5, b6, b7 := Book("b4", "Zemsta"), Book("b5", "Krzyżacy"), Book("b6", "Ferdydurke"), Book("b7", "Solaris");
    assert store.Current() == Snapshot([b4, b5], [b6, b7]);
    assert !HasId([b4, b5], "b6") by { assert "b4"[1] != "b6"[1] && "b5"[1] != "b6"[1]; }
    var ok := store.AddBorrowed(b6);
    assert [b6, b7][1..] == [b7];
    assert "b7" != "b6" by { assert "b7"[1] != "b6"[1]; }
    assert WithoutId([b7], "b6") == [b7];
  }

  /**
   * With the code as written, the stale commit also corrupts a cache entry:
   * after user2's response lands while user1 is selected, a borrow of b6
   * persists user2's books as user1's cache entry.
   */
  method StaleFetchCorruptsCacheAfterCacheHit() returns (selected: Option<Client>, cachedForUser1: Snapshot)
    ensures selected == Some(User1)
    ensures cachedForUser1 == Snapshot(
      [Book("b4", "Zemsta"), Book("b5", "Krzyżacy"), Book("b6", "Ferdydurke")],
      [Book("b7", "Solaris")])
  {
    var clients, bus, store := StaleCommitWhileUser1Selected();
    BorrowB6(store);
    selected := clients.current;
    cachedForUser1 := store.cache["user1"];
  }
}
