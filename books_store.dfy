/**
 * The book-lending store: the active client's `borrowed` and `available`
 * lists, a per-client cache of snapshots, and the id of the most recently
 * requested fetch, used to discard a response once the client has changed.
 *
 * The asynchronous reload is split into two calls: `Reload` may issue a
 * request, and `CompleteFetch` delivers the data source's response later.
 * Any interleaving of responses with other calls is a sequence of calls.
 */
module BooksStore {
  import opened Wrappers
  import opened Books
  import opened ClientStore
  import opened EventBusService
  import opened MockBooksService

  /** `cloneSnapshot`: both lists spread into new arrays; as values, the copy equals the original. */
  function CloneSnapshot(s: Snapshot): (r: Snapshot)
    ensures r == s
  {
    Snapshot(s.borrowed[..], s.available[..])
  }

  class BooksStore {
    var borrowed: seq<Book>
    var available: seq<Book>
    /** Per-client snapshots, keyed by client id; entries are never evicted. */
    var cache: map<string, Snapshot>
    /** The client id of the last fetch issued, or None once the client was cleared. */
    var lastRequestedUserId: Option<string>
    /** The shared client slot the store reads on reload and on persist. */
    const clients: ClientSlot
    /** The id under which the store's reload callback is subscribed to the bus. */
    const onUserChanged: Handler

    /** The lists on show and every cached snapshot are well-formed. */
    ghost predicate Valid()
      reads this
    {
      && WellFormed(Current())
      && forall userId | userId in cache :: WellFormed(cache[userId])
    }

    /** The lists on show, as a snapshot. */
    function Current(): (r: Snapshot)
      reads this
    {
      Snapshot(borrowed, available)
    }

    /** The derived `limitReached` flag the view shows: once it is set, every borrow is refused. */
    function LimitReached(): (r: bool)
      reads this
      ensures r ==> forall book: Book :: Borrow(Current(), book) == None
    {
      |borrowed| >= BorrowLimit
    }

    /** A new store shows nothing, caches nothing, and listens on `bus` for client changes. */
    constructor (clients: ClientSlot, bus: EventBus, onUserChanged: Handler)
      modifies bus
      ensures Valid()
      ensures this.clients == clients && this.onUserChanged == onUserChanged
      ensures Current() == EmptySnapshot && cache == map[] && lastRequestedUserId == None
      ensures bus.handlers == old(bus.handlers) + [onUserChanged]
    {
      borrowed, available := [], [];
      cache := map[];
      lastRequestedUserId := None;
      this.clients := clients;
      this.onUserChanged := onUserChanged;
      new;
      bus.Subscribe(onUserChanged);
    }

    /**
     * The bus handler. With no client: forget the pending request and show
     * nothing. With a cached client: show its cached lists, issue nothing and
     * leave the pending-request marker alone. Otherwise: record and return a
     * request for the client's id, leaving the lists as they are.
     */
    method Reload() returns (request: Option<string>)
      requires Valid()
      modifies this
      ensures Valid()
      ensures clients.current.None? ==>
        && request == None && lastRequestedUserId == None
        && Current() == EmptySnapshot && cache == old(cache)
      ensures clients.current.Some? && clients.current.value.id in old(cache) ==>
        && request == None && lastRequestedUserId == old(lastRequestedUserId)
        && Current() == old(cache)[clients.current.value.id] && cache == old(cache)
      ensures clients.current.Some? && clients.current.value.id !in old(cache) ==>
        && request == Some(clients.current.value.id) && lastRequestedUserId == request
        && Current() == old(Current()) && cache == old(cache)
    {
      var client := clients.current;
      if client.None? {
        lastRequestedUserId := None;
        borrowed, available := [], [];
        return None;
      }
      var userId := client.value.id;
      if userId in cache {
        SyncSignals(cache[userId]);
        return None;
      }
      lastRequestedUserId := Some(userId);
      request := Some(userId);
    }

    /**
     * `Reload` as the comment on the fetch continuation intends it: every
     * switch to a client, cached or not, supersedes the fetch in flight. The
     * only difference from `Reload` is that the cache-hit branch also records
     * the client's id as the last requested one, so that a response for any
     * other id is then discarded by `CompleteFetch`.
     */
    method ReloadAsIntended() returns (request: Option<string>)
      requires Valid()
      modifies this
      ensures Valid()
      ensures clients.current.None? ==> lastRequestedUserId == None
      ensures clients.current.Some? ==> lastRequestedUserId == Some(clients.current.value.id)
      ensures clients.current.None? ==>
        && request == None && Current() == EmptySnapshot && cache == old(cache)
      ensures clients.current.Some? && clients.current.value.id in old(cache) ==>
        && request == None && Current() == old(cache)[clients.current.value.id] && cache == old(cache)
      ensures clients.current.Some? && clients.current.value.id !in old(cache) ==>
        && request == Some(clients.current.value.id)
        && Current() == old(Current()) && cache == old(cache)
    {
      var client := clients.current;
      if client.None? {
        lastRequestedUserId := None;
        borrowed, available := [], [];
        return None;
      }
      var userId := client.value.id;
      lastRequestedUserId := Some(userId);
      if userId in cache {
        SyncSignals(cache[userId]);
        return None;
      }
      request := Some(userId);
    }

    /**
     * The continuation of the fetch for `requestId`: the response is the data
     * source's answer for that id. It commits, to the cache entry and to the
     * lists, only when `requestId` is still the last requested id; otherwise
     * nothing changes.
     */
    method CompleteFetch(requestId: string)
      requires Valid()
      modifies this
      ensures Valid()
      ensures lastRequestedUserId == old(lastRequestedUserId)
      ensures old(lastRequestedUserId) == Some(requestId) ==>
        && Current() == GetBooksForUser(requestId)
        && cache == old(cache)[requestId := GetBooksForUser(requestId)]
      ensures old(lastRequestedUserId) != Some(requestId) ==>
        Current() == old(Current()) && cache == old(cache)
    {
      var snapshot := GetBooksForUser(requestId);
      if lastRequestedUserId != Some(requestId) {
        return;
      }
      GetBooksForUserWellFormed(requestId);
      var normalized := CloneSnapshot(snapshot);
      cache := cache[requestId := normalized];
      SyncSignals(normalized);
    }

    /**
     * `addBorrowed`: refused, with nothing changed, when the cap is reached or
     * the id is already borrowed; otherwise the lists become `Borrow`'s result
     * and that result is persisted for the selected client.
     */
    method AddBorrowed(book: Book) returns (ok: bool)
      requires Valid()
      modifies this
      ensures Valid()
      ensures ok <==> |old(borrowed)| < BorrowLimit && !HasId(old(borrowed), book.id)
      ensures ok ==> Borrow(old(Current()), book) == Some(Current())
      ensures ok && clients.current.Some? ==> cache == old(cache)[clients.current.value.id := Current()]
      ensures ok && clients.current.None? ==> cache == old(cache)
      ensures !ok ==> Current() == old(Current()) && cache == old(cache)
      ensures lastRequestedUserId == old(lastRequestedUserId)
    {
      var current := borrowed;
      if |current| >= BorrowLimit {
        return false;
      }
      if HasId(current, book.id) {
        return false;
      }
      BorrowPreservesWellFormed(Current(), book);
      borrowed := current + [book];
      available := WithoutId(available, book.id);
      PersistCurrentState();
      ok := true;
    }

    /**
     * `returnBorrowed`: refused, with nothing changed, when no borrowed entry
     * has the book's id; otherwise the lists become `Return`'s result and that
     * result is persisted for the selected client.
     */
    method ReturnBorrowed(book: Book) returns (ok: bool)
      requires Valid()
      modifies this
      ensures Valid()
      ensures ok <==> HasId(old(borrowed), book.id)
      ensures ok ==> Return(old(Current()), book) == Some(Current())
      ensures ok && clients.current.Some? ==> cache == old(cache)[clients.current.value.id := Current()]
      ensures ok && clients.current.None? ==> cache == old(cache)
      ensures !ok ==> Current() == old(Current()) && cache == old(cache)
      ensures lastRequestedUserId == old(lastRequestedUserId)
    {
      var current := borrowed;
      if !HasId(current, book.id) {
        return false;
      }
      ReturnPreservesWellFormed(Current(), book);
      borrowed := WithoutId(current, book.id);
      var availableNow := available;
      if !HasId(availableNow, book.id) {
        available := availableNow + [book];
      }
      PersistCurrentState();
      ok := true;
    }

    /** `syncSignals`: show the lists of `snapshot`. */
    method SyncSignals(snapshot: Snapshot)
      modifies this
      ensures Current() == snapshot
      ensures cache == old(cache) && lastRequestedUserId == old(lastRequestedUserId)
    {
      borrowed := snapshot.borrowed[..];
      available := snapshot.available[..];
    }

    /**
     * `persistCurrentState`: with a client selected, its cache entry becomes
     * the lists on show and no other entry changes; with none, nothing changes.
     */
    method PersistCurrentState()
      requires Valid()
      modifies this
      ensures Valid()
      ensures Current() == old(Current()) && lastRequestedUserId == old(lastRequestedUserId)
      ensures clients.current.Some? ==> cache == old(cache)[clients.current.value.id := Current()]
      ensures clients.current.None? ==> cache == old(cache)
    {
      var client := clients.current;
      if client.None? {
        return;
      }
      cache := cache[client.value.id := CloneSnapshot(Current())];
    }
  }

  /**
   * Selecting a client as the view does: write the slot, then emit on the bus.
   * The bus's only subscriber is the store's handler, which touches no
   * subscription; the one handler the emission invokes is the store's, and
   * running it is the store's reload.
   */
  method SelectClient(clients: ClientSlot, bus: EventBus, store: BooksStore, client: Option<Client>)
    returns (request: Option<string>)
    requires store.Valid() && store.clients == clients
    requires bus.handlers == [store.onUserChanged]
    modifies clients, bus, store
    ensures store.Valid() && clients.current == client
    ensures bus.handlers == old(bus.handlers)
    ensures client.None? ==>
      request == None && store.Current() == EmptySnapshot && store.lastRequestedUserId == None
    ensures client.Some? && client.value.id in old(store.cache) ==>
      && request == None && store.Current() == old(store.cache)[client.value.id]
      && store.lastRequestedUserId == old(store.lastRequestedUserId)
    ensures client.Some? && client.value.id !in old(store.cache) ==>
      && request == Some(client.value.id) && store.lastRequestedUserId == request
      && store.Current() == old(store.Current())
    ensures store.cache == old(store.cache)
  {
    clients.SetClient(client);
    var react := (h: Handler) => Idle;
    var invoked := bus.Emit(react);
    IdleReactionsKeepHandlers(old(bus.handlers), ReactionsOf(invoked, react));
    assert invoked == [store.onUserChanged];
    request := store.Reload();
  }
}
