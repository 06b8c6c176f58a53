/**
 * Books and the per-client snapshot of borrowed and available books, with the
 * pure list operations the store is built from (`some`, `filter`, spread) and
 * the specification of a borrow and of a return as functions on snapshots.
 */
module Books {
  import opened Wrappers

  /** A book; its identity is `id`. */
  datatype Book = Book(id: string, title: string)

  /** The pair of lists a client sees. */
  datatype Snapshot = Snapshot(borrowed: seq<Book>, available: seq<Book>)

  /** At most this many books may be borrowed at once. */
  const BorrowLimit: nat := 3

  const EmptySnapshot: Snapshot := Snapshot([], [])

  /** `s.some(b => b.id === id)`: true exactly when some entry has that id. */
  predicate HasId(s: seq<Book>, id: string): (r: bool)
    ensures r <==> exists i | 0 <= i < |s| :: s[i].id == id
  {
    s != [] && (s[0].id == id || HasId(s[1..], id))
  }

  /**
   * `s.filter(b => b.id !== id)`: every entry with that id removed, each other
   * entry kept as often as it occurs (`WithoutIdMultiplicity`), in order
   * (`WithoutIdConcat`).
   */
  function WithoutId(s: seq<Book>, id: string): (r: seq<Book>)
    ensures |r| <= |s|
    ensures !HasId(r, id)
    ensures forall b :: b in r <==> b in s && b.id != id
  {
    if s == [] then []
    else if s[0].id == id then WithoutId(s[1..], id)
    else [s[0]] + WithoutId(s[1..], id)
  }

  /** No two entries of `s` share an id. */
  predicate DistinctIds(s: seq<Book>)
  {
    forall i, j | 0 <= i < j < |s| :: s[i].id != s[j].id
  }

  /**
   * The invariant every reachable snapshot keeps: the cap on borrowed books,
   * no repeated id within either list, and no id in both lists. In particular
   * no book is both borrowed and available.
   */
  predicate WellFormed(s: Snapshot): (r: bool)
    ensures r ==> |s.borrowed| <= BorrowLimit
    ensures r ==> forall b | b in s.borrowed :: b !in s.available
  {
    && |s.borrowed| <= BorrowLimit
    && DistinctIds(s.borrowed)
    && DistinctIds(s.available)
    && forall b | b in s.borrowed :: !HasId(s.available, b.id)
  }

  /**
   * What a borrow of `book` does to snapshot `s`: None when the cap is reached
   * or a book with that id is already borrowed; otherwise the book goes to the
   * end of `borrowed` and every entry with its id leaves `available`.
   */
  function Borrow(s: Snapshot, book: Book): (r: Option<Snapshot>)
    ensures r.Some? <==> |s.borrowed| < BorrowLimit && !HasId(s.borrowed, book.id)
    ensures r.Some? ==> HasId(r.value.borrowed, book.id) && !HasId(r.value.available, book.id)
  {
    if |s.borrowed| >= BorrowLimit then None
    else if HasId(s.borrowed, book.id) then None
    else
      var borrowed := s.borrowed + [book];
      assert borrowed[|s.borrowed|].id == book.id;
      Some(Snapshot(borrowed, WithoutId(s.available, book.id)))
  }

  /**
   * What a return of `book` does to snapshot `s`: None when no borrowed entry
   * has its id; otherwise every entry with that id leaves `borrowed`, and the
   * book goes to the end of `available` unless an entry with its id is there.
   */
  function Return(s: Snapshot, book: Book): (r: Option<Snapshot>)
    ensures r.Some? <==> HasId(s.borrowed, book.id)
    ensures r.Some? ==> !HasId(r.value.borrowed, book.id) && HasId(r.value.available, book.id)
  {
    if !HasId(s.borrowed, book.id) then None
    else
      var available := if HasId(s.available, book.id) then s.available else s.available + [book];
      assert !HasId(s.available, book.id) ==> available[|s.available|].id == book.id;
      Some(Snapshot(WithoutId(s.borrowed, book.id), available))
  }

  /** A successful borrow: the book is borrowed, no longer available, and the cap still holds. */
  lemma BorrowOutcome(s: Snapshot, book: Book)
    requires Borrow(s, book).Some?
    ensures var t := Borrow(s, book).value;
      && |t.borrowed| == |s.borrowed| + 1 <= BorrowLimit
      && t.borrowed[|t.borrowed| - 1] == book
      && t.borrowed[..|s.borrowed|] == s.borrowed
      && !HasId(t.available, book.id)
  {
  }

  /** Removing an id that is absent changes nothing. */
  lemma {:induction false} WithoutAbsentId(s: seq<Book>, id: string)
    requires !HasId(s, id)
    ensures WithoutId(s, id) == s
  {
    if s != [] {
      assert s[0].id != id;
      assert !HasId(s[1..], id) by {
        forall i | 0 <= i < |s[1..]| ensures s[1..][i].id != id {
          assert s[1..][i] == s[i + 1];
        }
      }
      WithoutAbsentId(s[1..], id);
      assert s == [s[0]] + s[1..];
    }
  }

  /** Filtering keeps each entry with another id exactly as often as it occurs. */
  lemma {:induction false} WithoutIdMultiplicity(s: seq<Book>, id: string)
    ensures forall b :: multiset(WithoutId(s, id))[b] == if b.id == id then 0 else multiset(s)[b]
  {
    if s != [] {
      WithoutIdMultiplicity(s[1..], id);
      assert s == [s[0]] + s[1..];
      assert multiset(s) == multiset{s[0]} + multiset(s[1..]);
      if s[0].id != id {
        assert multiset(WithoutId(s, id)) == multiset{s[0]} + multiset(WithoutId(s[1..], id));
      }
    }
  }

  /** Filtering distributes over concatenation, so the kept entries stay in order. */
  lemma {:induction false} WithoutIdConcat(s: seq<Book>, t: seq<Book>, id: string)
    ensures WithoutId(s + t, id) == WithoutId(s, id) + WithoutId(t, id)
  {
    if s == [] {
      assert s + t == t;
    } else {
      assert (s + t)[0] == s[0];
      assert (s + t)[1..] == s[1..] + t;
      WithoutIdConcat(s[1..], t, id);
    }
  }

  /** Dropping the first entry keeps ids distinct. */
  lemma DistinctIdsTail(s: seq<Book>)
    requires s != [] && DistinctIds(s)
    ensures DistinctIds(s[1..])
  {
    var tail := s[1..];
    forall i, j | 0 <= i < j < |tail| ensures tail[i].id != tail[j].id {
      assert tail[i] == s[i + 1] && tail[j] == s[j + 1];
    }
  }

  /** With distinct ids, no entry after the first shares the first entry's id. */
  lemma HeadIdNotInTail(s: seq<Book>)
    requires s != [] && DistinctIds(s)
    ensures !HasId(s[1..], s[0].id)
  {
    var tail := s[1..];
    forall k | 0 <= k < |tail| ensures tail[k].id != s[0].id {
      assert tail[k] == s[k + 1];
    }
  }

  /** Filtering keeps the remaining entries in order, so distinct ids stay distinct. */
  lemma {:induction false} WithoutIdKeepsDistinct(s: seq<Book>, id: string)
    requires DistinctIds(s)
    ensures DistinctIds(WithoutId(s, id))
  {
    if s != [] {
      var tail := s[1..];
      DistinctIdsTail(s);
      WithoutIdKeepsDistinct(tail, id);
      if s[0].id != id {
        var w := WithoutId(tail, id);
        HeadIdNotInTail(s);
        assert !HasId(w, s[0].id) by {
          forall k | 0 <= k < |w| ensures w[k].id != s[0].id {
            assert w[k] in tail;
          }
        }
        DistinctIdsCons(s[0], w);
        assert WithoutId(s, id) == [s[0]] + w;
      }
    }
  }

  /** Putting a book in front of a list with distinct ids that lacks its id keeps ids distinct. */
  lemma DistinctIdsCons(b: Book, w: seq<Book>)
    requires DistinctIds(w) && !HasId(w, b.id)
    ensures DistinctIds([b] + w)
  {
    var r := [b] + w;
    forall i, j | 0 <= i < j < |r| ensures r[i].id != r[j].id {
      assert r[j] == w[j - 1];
      if i > 0 {
        assert r[i] == w[i - 1];
      }
    }
  }

  /** A successful borrow keeps a well-formed snapshot well-formed. */
  lemma BorrowPreservesWellFormed(s: Snapshot, book: Book)
    requires WellFormed(s)
    requires Borrow(s, book).Some?
    ensures WellFormed(Borrow(s, book).value)
  {
    var t := Borrow(s, book).value;
    WithoutIdKeepsDistinct(s.available, book.id);
    forall b | b in t.borrowed ensures !HasId(t.available, b.id) {
      if b != book {
        assert b in s.borrowed;
        forall i | 0 <= i < |t.available| ensures t.available[i].id != b.id {
          assert t.available[i] in s.available;
        }
      }
    }
  }

  /** A successful return keeps a well-formed snapshot well-formed. */
  lemma ReturnPreservesWellFormed(s: Snapshot, book: Book)
    requires WellFormed(s)
    requires Return(s, book).Some?
    ensures WellFormed(Return(s, book).value)
  {
    var t := Return(s, book).value;
    WithoutIdKeepsDistinct(s.borrowed, book.id);
    forall b | b in t.borrowed ensures !HasId(t.available, b.id) {
      assert b in s.borrowed && b.id != book.id;
      forall i | 0 <= i < |t.available| ensures t.available[i].id != b.id {
        if i < |s.available| {
          assert t.available[i] == s.available[i];
        }
      }
    }
  }

  /**
   * Borrowing a book and returning it gives back the original `borrowed`;
   * `available` ends as the original without that id, followed by the book.
   */
  lemma BorrowThenReturn(s: Snapshot, book: Book)
    requires Borrow(s, book).Some?
    ensures Return(Borrow(s, book).value, book).Some?
    ensures var u := Return(Borrow(s, book).value, book).value;
      && u.borrowed == s.borrowed
      && u.available == WithoutId(s.available, book.id) + [book]
  {
    var t := Borrow(s, book).value;
    assert t.borrowed[|s.borrowed|] == book;
    WithoutIdConcat(s.borrowed, [book], book.id);
    WithoutAbsentId(s.borrowed, book.id);
  }

  /** A book whose id was not available before the borrow is simply appended back. */
  lemma BorrowThenReturnFresh(s: Snapshot, book: Book)
    requires Borrow(s, book).Some?
    requires !HasId(s.available, book.id)
    ensures Return(Borrow(s, book).value, book) == Some(Snapshot(s.borrowed, s.available + [book]))
  {
    BorrowThenReturn(s, book);
    WithoutAbsentId(s.available, book.id);
  }
}
