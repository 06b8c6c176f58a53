# Book-lending store — a Dafny model

This project models the core of a small book-lending demo. A user selects a
client, sees that client's borrowed and available books, and borrows (at most
three at a time) or returns books. The parts modelled are:

- the **book store** (`BooksStore.BooksStore`): the `borrowed` and `available`
  lists, the per-client snapshot cache, the id of the last requested fetch,
  and the operations reload, fetch completion, borrow, return, sync and
  persist;
- the **mock data source** (`MockBooksService`): the fixed seed table and the
  failure-free lookup `GetBooksForUser`;
- the **event bus** (`EventBusService.EventBus`): the ordered handler list,
  subscribe, unsubscribe by identity and emission over a snapshot of the list;
- the **client store** (`ClientStore.ClientSlot`): the single replaceable slot
  that holds the selected client.

The pure specification of a borrow and of a return lives in module `Books`
(`Borrow`, `Return` on snapshots, with the well-formedness invariant
`WellFormed`: at most three borrowed books, no repeated id in either list, no
id in both). The store's methods are proved against those functions, and the
functions' properties are proved as lemmas.

The asynchronous reload is split in two calls. `Reload` may issue a request
and returns the requested client id. `CompleteFetch(id)` later delivers the
data source's answer for that id. Any interleaving of responses with client
switches, borrows and returns is a sequence of calls, and `StoreTraces` holds
several such sequences with their outcomes proved.

The comment at src/app/stores/books.store.ts:63 says a fetch response is
ignored when the user was switched in the meantime. The code falls short of
that: see "## Findings". `BooksStore.BooksStore.Reload` and the store's bus
handler model the code as written; `BooksStore.BooksStore.ReloadAsIntended`
is the corrected reload. With the code as written, stale responses are
discarded only when something has reset the marker: a later fetch
(`StoreTraces.StaleFetchDiscarded`) or the clearing of the client
(`StoreTraces.StaleFetchDiscardedAfterClear`). The contract of
`CompleteFetch` states the general rule.

`Books.BorrowThenReturn` states the exact sequences after a borrow and a
return of the same book: `borrowed` comes back unchanged, and the returned
book goes to the end of `available`.

## Model

| member | source | states |
|---|---|---|
| Books.HasId | src/app/stores/books.store.ts:81 | the `some` by id is true exactly when some entry of the list has that id |
| Books.WellFormed | src/app/stores/books.store.ts:76-108 | the snapshot invariant the store keeps: at most 3 borrowed books, distinct ids in each list, no id in both; it implies no book is both borrowed and available |
| Books.Borrow | src/app/stores/books.store.ts:76-88 | a borrow succeeds exactly when fewer than 3 books are borrowed and none has the book's id; after success the book's id is borrowed and no longer available |
| Books.Return | src/app/stores/books.store.ts:95-106 | a return succeeds exactly when a borrowed entry has the book's id; after success no borrowed entry has that id and an available one does |
| Books.WithoutId | src/app/stores/books.store.ts:88 | the `filter` by id leaves no entry with that id, keeps exactly the entries with other ids, and never grows the list |
| Books.BorrowOutcome | src/app/stores/books.store.ts:85-90 | for any snapshot, a successful borrow puts the book at the end of `borrowed`, keeps the earlier borrowed entries as a prefix, stays within the cap of 3, and leaves no entry with the book's id in `available` |
| Books.BorrowPreservesWellFormed | src/app/stores/books.store.ts:76-90 | a successful borrow keeps the cap, keeps ids distinct within each list, and keeps the two lists id-disjoint |
| Books.ReturnPreservesWellFormed | src/app/stores/books.store.ts:95-108 | a successful return keeps the cap, keeps ids distinct within each list (the book is appended only if its id is absent), and keeps the two lists id-disjoint |
| Books.BorrowThenReturn | src/app/stores/books.store.ts:85-108 | a borrow followed by a return of the same book succeeds, restores the original `borrowed`, and leaves `available` as the original without that id followed by the book |
| Books.BorrowThenReturnFresh | src/app/stores/books.store.ts:85-108 | if the book's id was not available before the borrow, the round trip restores `borrowed` and appends the book to the original `available` |
| Books.WithoutAbsentId | src/app/stores/books.store.ts:88 | filtering out an id that no entry has returns the list unchanged |
| Books.WithoutIdMultiplicity | src/app/stores/books.store.ts:88 | the filter keeps every entry with another id exactly as many times as it occurs, and none with that id |
| Books.WithoutIdConcat | src/app/stores/books.store.ts:101 | filtering by id distributes over concatenation, so the kept entries stay in order |
| Books.WithoutIdKeepsDistinct | src/app/stores/books.store.ts:101 | filtering a list with distinct ids gives a list with distinct ids |
| MockBooksService.CopyBooks | src/app/services/mock-books.service.ts:47-49 | the element-wise copy has the same length and, at every index, the same id and title |
| MockBooksService.CopyBooksIsEqual | src/app/services/mock-books.service.ts:47-49 | the copy is equal to the list it was copied from |
| MockBooksService.GetBooksForUser | src/app/services/mock-books.service.ts:42-51 | a known id gives exactly its table entry; an unknown id gives empty `borrowed` and `available`; the lookup never fails and the table is a constant |
| MockBooksService.SeedWellFormed | src/app/services/mock-books.service.ts:16-35 | every seed entry has at most 3 borrowed books, distinct ids in each list, and no id in both lists |
| MockBooksService.GetBooksForUserWellFormed | src/app/services/mock-books.service.ts:42-51 | whatever the id, the data source answers with a well-formed snapshot |
| EventBusService.Without | src/app/services/event-bus.service.ts:13 | removal by identity: no entry equal to the handler is left, every other handler stays |
| EventBusService.EventBus.constructor | src/app/services/event-bus.service.ts:6 | a new bus has no handlers |
| EventBusService.EventBus.Subscribe | src/app/services/event-bus.service.ts:8-10 | the handler is appended at the end, and the earlier handlers keep their order |
| EventBusService.EventBus.Unsubscribe | src/app/services/event-bus.service.ts:11-14 | the handler list becomes the old list without every entry equal to the handler |
| EventBusService.EventBus.Emit | src/app/services/event-bus.service.ts:17-20 | the handlers invoked are exactly the list at the start of the call, each entry once, in order; a subscription or unsubscription made by an invoked handler during the pass (at most one per invocation) changes the list afterwards, in invocation order, but not who is invoked |
| EventBusService.WithoutMultiplicity | src/app/services/event-bus.service.ts:13 | removal by identity keeps every other handler exactly as many times as it was registered, and no entry equal to the handler |
| EventBusService.WithoutConcat | src/app/services/event-bus.service.ts:13 | removal distributes over concatenation, so the remaining handlers keep their registration order |
| EventBusService.WithoutAbsent | src/app/services/event-bus.service.ts:13 | unsubscribing a handler that is not registered changes nothing |
| EventBusService.UnsubscribeIdempotent | src/app/services/event-bus.service.ts:13 | calling an unsubscribe a second time changes nothing |
| EventBusService.SubscribeThenUnsubscribe | src/app/services/event-bus.service.ts:8-14 | subscribing a new handler and unsubscribing it restores the list; a handler subscribed twice loses both entries |
| EventBusService.IdleReactionsKeepHandlers | src/app/services/event-bus.service.ts:17-20 | an emission whose handlers do not touch the bus leaves the handler list unchanged |
| ClientStore.ClientSlot.constructor | src/app/stores/client.store.ts:11 | the slot starts empty |
| ClientStore.ClientSlot.SetClient | src/app/stores/client.store.ts:14-16 | the slot afterwards holds exactly the given value, absent included, with no validation |
| BooksStore.CloneSnapshot | src/app/stores/books.store.ts:127-132 | the copy of a snapshot is equal to it |
| BooksStore.BooksStore.constructor | src/app/stores/books.store.ts:17-39 | a new store shows empty lists, has an empty cache and no pending request, and its reload handler is appended to the bus |
| BooksStore.BooksStore.Reload | src/app/stores/books.store.ts:41-61 | no client: pending request cleared, both lists empty, no request; cached client: the cached lists shown, no request, pending marker untouched; otherwise a request for the client's id is recorded and returned, lists unchanged; the cache never changes; the invariant is kept |
| BooksStore.BooksStore.ReloadAsIntended | src/app/stores/books.store.ts:41-63 | the corrected reload: as `Reload`, except that after a switch to any client, cached or not, the last requested id is that client's id, so a response for any other id is discarded |
| BooksStore.BooksStore.CompleteFetch | src/app/stores/books.store.ts:62-70 | the response commits only when its id is the last requested one: the cache entry for that id and the lists become the data source's answer; any other response changes nothing; the pending marker is untouched |
| BooksStore.BooksStore.AddBorrowed | src/app/stores/books.store.ts:73-91 | returns true exactly when fewer than 3 books are borrowed and none has the book's id; on success the lists become `Borrow`'s result and the selected client's cache entry (only that one) equals them; on refusal nothing changes |
| BooksStore.BooksStore.ReturnBorrowed | src/app/stores/books.store.ts:93-109 | returns true exactly when a borrowed entry has the book's id; on success the lists become `Return`'s result and the selected client's cache entry (only that one) equals them; on refusal nothing changes |
| BooksStore.BooksStore.SyncSignals | src/app/stores/books.store.ts:111-114 | the lists shown become those of the snapshot; cache and pending marker unchanged |
| BooksStore.BooksStore.PersistCurrentState | src/app/stores/books.store.ts:116-125 | with a client selected, its cache entry becomes the lists on show and no other entry changes; with none, the cache is unchanged |
| BooksStore.BooksStore.LimitReached | src/app/borrow/borrow.component.ts:81 | once the derived limit flag is set, every borrow of any book is refused |
| BooksStore.SelectClient | src/app/borrow/borrow.component.ts:37-46 | writing the client slot and emitting on the bus, whose only subscriber is the store's handler, leaves the handler list as it was and has the outcome of `Reload` for the new client |
| StoreTraces.BorrowWalkthrough | src/app/services/mock-books.service.ts:17-25 | loading user1 shows b1 borrowed and b2, b3 available; borrowing b2 and b3 reaches the limit; any fourth borrow is refused; returning b1 leaves b2, b3 borrowed and b1 available |
| StoreTraces.CacheFastPath | src/app/stores/books.store.ts:52-56 | after user1 is loaded and changed, switching to user2 and back issues no request and shows user1 exactly as it was left |
| StoreTraces.StaleFetchDiscarded | src/app/stores/books.store.ts:60-66 | when user1's request is superseded by user2's, user1's response changes nothing and is not cached; user2's commits |
| StoreTraces.StaleFetchCommitsAfterCacheHit | src/app/stores/books.store.ts:52-66 | a fetch for user1 still in flight when the user switches to a cached user2 commits user1's books while user2 is selected |
| StoreTraces.StaleFetchDiscardedAfterClear | src/app/stores/books.store.ts:44-49 | when the selection is cleared while user1's fetch is in flight, user1's response changes nothing and is not cached |
| StoreTraces.StaleFetchDiscardedAfterCacheHitIntended | src/app/stores/books.store.ts:52-66 | with the corrected reload, the same interleaving (user2 cached, user1 requested, user2 selected again, user1's response arrives) leaves user2's books on show |
| StoreTraces.StaleFetchCorruptsCacheAfterCacheHit | src/app/stores/books.store.ts:52-70 | with the code as written, user2's late response lands while user1 is selected, and a borrow of b6 then stores user2's books as user1's cache entry |

## Left out

- Angular signals, dependency injection and the view component: signals are plain fields, the store holds a reference to the client slot, and the view's "select client" is `BooksStore.SelectClient`. The derived `limitReached` flag is `BooksStore.BooksStore.LimitReached`.
- Promise scheduling: a fetch is the pair `Reload` / `CompleteFetch`, and the response is the data source's answer for the requested id. The table is a constant, so the answer at resolution equals the answer at request time. A fetch that never resolves is a request that is never completed.
- Object identity and aliasing behind the spread copies and `cloneSnapshot`: books and lists are values, so "is a copy" is "is equal".
- Handler closures: handlers are opaque ids. What a handler does to the bus while it runs is given by a `Reaction` per handler.
- EventBusService.EventBus.Emit: each invocation makes at most one subscribe or unsubscribe, and it is decided by the handler id alone. So the model does not capture a handler that makes several bus changes, one registered twice that reacts differently each time, or a handler that emits again (re-entrant emission). Whatever else it does is the caller's next call after `Emit`; for the store's handler that is `Reload`, as in `BooksStore.SelectClient`.
- MockBooksService.GetBooksForUser: does not model ids that name inherited properties of a plain JavaScript object (such as `toString`). For those the source's lookup finds a non-snapshot and throws. The model treats every id outside the two seed users as unknown.

## Findings

| source | as written | input that shows it | evidently intended | confidence | as-written member | corrected member |
|---|---|---|---|---|---|---|
| src/app/stores/books.store.ts:52-56 | the cache-hit branch of `reload` returns without updating `lastRequestedUserId`, so the check at line 64 still accepts a response to a fetch issued before the switch | user2 loaded; select user1 (fetch in flight); select user2 (served from the cache); user1's response arrives and replaces the lists while user2 is selected; a later borrow then persists the wrong books under the selected client's cache entry (`StoreTraces.StaleFetchCorruptsCacheAfterCacheHit`) | every switch of client, cached or not, supersedes the fetch in flight, as the comment at line 63 says | high; not executed | StoreTraces.StaleFetchCommitsAfterCacheHit | BooksStore.BooksStore.ReloadAsIntended |
