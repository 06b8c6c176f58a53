/**
 * The mock data source: a fixed table of two sample users and a lookup that
 * answers with a copy of a user's entry, or with an empty snapshot for an
 * unknown user. The lookup never fails and the table is never written.
 */
module MockBooksService {
  import opened Books

  /** The seed table `userBooks`. */
  const UserBooks: map<string, Snapshot> := map[
    "user1" := Snapshot(
      [Book("b1", "Pan Tadeusz")],
      [Book("b2", "Lalka"), Book("b3", "Ballady i romanse")]),
    "user2" := Snapshot(
      [Book("b4", "Zemsta"), Book("b5", "Krzyżacy")],
      [Book("b6", "Ferdydurke"), Book("b7", "Solaris")])
  ]

  /**
   * `books.map(b => ({ ...b }))`: a field-wise copy of every entry. Books are
   * values here, so the copy is equal to its source, element by element.
   */
  function CopyBooks(books: seq<Book>): (r: seq<Book>)
    ensures |r| == |books|
    ensures forall i | 0 <= i < |r| :: r[i].id == books[i].id && r[i].title == books[i].title
  {
    if books == [] then []
    else [Book(books[0].id, books[0].title)] + CopyBooks(books[1..])
  }

  /** A copy equals what it was copied from. */
  lemma CopyBooksIsEqual(books: seq<Book>)
    ensures CopyBooks(books) == books
  {
  }

  /**
   * `getBooksForUser`: the table entry for `userId`, copied, or an empty
   * snapshot when the table has no such user.
   */
  function GetBooksForUser(userId: string): (r: Snapshot)
    ensures userId in UserBooks ==> r == UserBooks[userId]
    ensures userId !in UserBooks ==> r == EmptySnapshot
  {
    var entry := if userId in UserBooks then UserBooks[userId] else EmptySnapshot;
    CopyBooksIsEqual(entry.borrowed);
    CopyBooksIsEqual(entry.available);
    Snapshot(CopyBooks(entry.borrowed), CopyBooks(entry.available))
  }

  /** Every seed entry respects the cap and has no id in both lists. */
  lemma SeedWellFormed()
    ensures forall userId | userId in UserBooks :: WellFormed(UserBooks[userId])
  {
  }

  /** Whatever the id, the data source answers with a well-formed snapshot. */
  lemma GetBooksForUserWellFormed(userId: string)
    ensures WellFormed(GetBooksForUser(userId))
  {
    SeedWellFormed();
  }
}
