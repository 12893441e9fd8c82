/**
 * Properties of the circulation store, stated on the transitions of
 * `DataAccess`: every call keeps the identity columns valid; careful callers
 * (see `Guarded`) keep the Ordered flags in step with the open loans; and
 * careless calls break that, exactly as the unguarded statements allow.
 */
module Circulation {
  import opened Wrappers
  import opened Models
  import opened Seqs
  import opened DataAccess

  // ----- counting rows -----

  /** With unique book ids, "exactly one row has id b" is "some row has id b". */
  lemma {:induction false} UniqueIdCount(books: seq<BookRow>, b: int)
    requires forall i, j :: 0 <= i < j < |books| ==> books[i].id != books[j].id
    ensures Count(books, BookIdIs(b)) == (if exists i :: 0 <= i < |books| && books[i].id == b then 1 else 0)
    decreases |books|
  {
    if |books| > 0 {
      CountCons(books, BookIdIs(b));
      UniqueIdCount(books[1..], b);
      if books[0].id == b {
        assert forall i :: 0 <= i < |books[1..]| ==> books[1..][i].id != b by {
          assert forall i :: 0 <= i < |books[1..]| ==> books[1..][i] == books[i + 1];
        }
      } else if exists i :: 0 <= i < |books| && books[i].id == b {
        var i :| 0 <= i < |books| && books[i].id == b;
        assert books[1..][i - 1].id == b;
      }
    }
  }

  lemma CountOpenAfterOrder(t: Tables, u: int, b: int, now: int, c: int)
    ensures Count(t.orders + [NewOrderRow(t, u, b, now)], OpenLoanOf(c)) == Count(t.orders, OpenLoanOf(c)) + (if c == b then 1 else 0)
  {
    CountSnoc(t.orders, NewOrderRow(t, u, b, now), OpenLoanOf(c));
  }

  /** Marking (u, b) returned closes exactly the open (u, b) loans and no others. */
  lemma {:induction false} CountOpenAfterReturn(orders: seq<OrderRow>, u: int, b: int, c: int)
    ensures Count(WithReturned(orders, u, b), OpenLoanOf(c)) + (if c == b then Count(orders, OpenLoanBy(u, b)) else 0)
            == Count(orders, OpenLoanOf(c))
    decreases |orders|
  {
    if |orders| > 0 {
      var r := WithReturned(orders, u, b);
      assert r[1..] == WithReturned(orders[1..], u, b);
      CountOpenAfterReturn(orders[1..], u, b, c);
      CountCons(r, OpenLoanOf(c));
      CountCons(orders, OpenLoanOf(c));
      CountCons(orders, OpenLoanBy(u, b));
    }
  }

  // ----- identity columns -----

  lemma DeletePreservesValid(t: Tables, b: int)
    requires ValidTables(t)
    ensures ValidTables(AfterDeleteBook(t, b))
  {
    var kept := Filter(t.books, BookIdIsNot(b));
    FilterMembers(t.books, BookIdIsNot(b));
    FilterDistinct(t.books, BookIdIsNot(b), (r: BookRow) => r.id);
    forall i | 0 <= i < |kept|
      ensures 1 <= kept[i].id < t.nextBookId
    {
      var j :| 0 <= j < |t.books| && t.books[j] == kept[i];
    }
  }

  /** Appending a row with the next identity value keeps the identity columns valid. */
  lemma InsertsPreserveValid(t: Tables, c: Call)
    requires ValidTables(t)
    requires c.CreateUser? || c.Order? || c.InsertBook? || c.CreateCategory?
    ensures ValidTables(Apply(t, c))
  {
  }

  /** Updates in place keep every id where it was. */
  lemma UpdatesPreserveValid(t: Tables, c: Call)
    requires ValidTables(t)
    requires c.Return? || c.SetBlocked? || c.SetActive?
    ensures ValidTables(Apply(t, c))
  {
  }

  /** Every call on the store keeps ids positive, unique and below the next identity value. */
  lemma ApplyPreservesValid(t: Tables, c: Call)
    requires ValidTables(t)
    ensures ValidTables(Apply(t, c))
  {
    match c
    case DeleteBook(b) => DeletePreservesValid(t, b);
    case Return(_, _) => UpdatesPreserveValid(t, c);
    case SetBlocked(_, _) => UpdatesPreserveValid(t, c);
    case SetActive(_, _) => UpdatesPreserveValid(t, c);
    case _ => InsertsPreserveValid(t, c);
  }

  lemma {:induction false} RunPreservesValid(t: Tables, calls: seq<Call>)
    requires ValidTables(t)
    ensures ValidTables(Run(t, calls))
    decreases |calls|
  {
    if |calls| > 0 {
      ApplyPreservesValid(t, calls[0]);
      RunPreservesValid(Apply(t, calls[0]), calls[1..]);
    }
  }

  // ----- OrderBook -----

  /**
   * `OrderBook` never consults the Ordered flag: its reply, and the loan row
   * it records, are the same whatever the book's flag was.
   */
  lemma OrderIgnoresFlag(t: Tables, u: int, b: int, now: int, v: bool)
    ensures OrderReply(t.(books := WithBookOrdered(t.books, b, v)), b) == OrderReply(t, b)
    ensures AfterOrder(t.(books := WithBookOrdered(t.books, b, v)), u, b, now).orders == AfterOrder(t, u, b, now).orders
  {
    CountSameIds(t.books, WithBookOrdered(t.books, b, v), b);
  }

  lemma {:induction false} CountSameIds(a: seq<BookRow>, c: seq<BookRow>, b: int)
    requires |a| == |c|
    requires forall i :: 0 <= i < |a| ==> a[i].id == c[i].id
    ensures Count(a, BookIdIs(b)) == Count(c, BookIdIs(b))
    decreases |a|
  {
    if |a| > 0 {
      CountCons(a, BookIdIs(b));
      CountCons(c, BookIdIs(b));
      CountSameIds(a[1..], c[1..], b);
    }
  }

  /** In a valid store `OrderBook` succeeds exactly when the book exists. */
  lemma OrderReplyIffExists(t: Tables, b: int)
    requires ValidTables(t)
    ensures OrderReply(t, b) <==> exists i :: 0 <= i < |t.books| && t.books[i].id == b
  {
    UniqueIdCount(t.books, b);
  }

  /** After `OrderBook` the loan table grew by one open row and every row with the book's id is flagged. */
  lemma OrderEffect(t: Tables, u: int, b: int, now: int)
    ensures |AfterOrder(t, u, b, now).orders| == |t.orders| + 1
    ensures Count(AfterOrder(t, u, b, now).orders, OpenLoanBy(u, b)) == Count(t.orders, OpenLoanBy(u, b)) + 1
    ensures forall i :: 0 <= i < |t.books| && t.books[i].id == b ==> AfterOrder(t, u, b, now).books[i].ordered
    ensures forall i :: 0 <= i < |t.books| && t.books[i].id != b ==> AfterOrder(t, u, b, now).books[i] == t.books[i]
  {
    CountSnoc(t.orders, NewOrderRow(t, u, b, now), OpenLoanBy(u, b));
  }

  // ----- ReturnBook -----

  /** `ReturnBook` frees the book whatever the loan table says, and touches only the (u, b) loan rows. */
  lemma ReturnEffect(t: Tables, u: int, b: int)
    ensures forall i :: 0 <= i < |t.books| && t.books[i].id == b ==> !AfterReturn(t, u, b).books[i].ordered
    ensures forall k :: 0 <= k < |t.orders| && LoanOf(u, b)(t.orders[k]) ==> AfterReturn(t, u, b).orders[k].returned
    ensures forall k :: 0 <= k < |t.orders| && !LoanOf(u, b)(t.orders[k]) ==> AfterReturn(t, u, b).orders[k] == t.orders[k]
    ensures Count(AfterReturn(t, u, b).orders, OpenLoanBy(u, b)) == 0
  {
    var r := WithReturned(t.orders, u, b);
    assert forall k :: 0 <= k < |r| ==> !OpenLoanBy(u, b)(r[k]);
    FilterKeepsNone(r, OpenLoanBy(u, b));
  }

  // ----- consistency under careful use -----

  lemma OrderPreservesConsistent(t: Tables, u: int, b: int, now: int)
    requires ValidTables(t) && Consistent(t)
    requires Available(t.books, b)
    ensures Consistent(AfterOrder(t, u, b, now))
  {
    var t' := AfterOrder(t, u, b, now);
    var j :| 0 <= j < |t.books| && t.books[j].id == b && !t.books[j].ordered;
    forall i | 0 <= i < |t'.books|
      ensures Count(t'.orders, OpenLoanOf(t'.books[i].id)) == (if t'.books[i].ordered then 1 else 0)
    {
      assert t'.books[i].id == t.books[i].id;
      CountOpenAfterOrder(t, u, b, now, t.books[i].id);
      if t.books[i].id == b {
        assert i == j;
      }
    }
    assert forall k :: 0 <= k < |t'.orders| ==> t'.orders[k].bookId < t'.nextBookId by {
      assert forall k :: 0 <= k < |t.orders| ==> t'.orders[k] == t.orders[k];
    }
  }

  lemma ReturnPreservesConsistent(t: Tables, u: int, b: int)
    requires ValidTables(t) && Consistent(t)
    requires Count(t.orders, OpenLoanBy(u, b)) == 1
    ensures Consistent(AfterReturn(t, u, b))
  {
    var t' := AfterReturn(t, u, b);
    forall i | 0 <= i < |t'.books|
      ensures Count(t'.orders, OpenLoanOf(t'.books[i].id)) == (if t'.books[i].ordered then 1 else 0)
    {
      assert t'.books[i].id == t.books[i].id;
      CountOpenAfterReturn(t.orders, u, b, t.books[i].id);
    }
  }

  lemma InsertPreservesConsistent(t: Tables, book: Book)
    requires ValidTables(t) && Consistent(t)
    ensures Consistent(AfterInsertBook(t, book))
  {
    var t' := AfterInsertBook(t, book);
    FilterMembers(t.orders, OpenLoanOf(t.nextBookId));
    FilterKeepsNone(t.orders, OpenLoanOf(t.nextBookId));
    assert forall i :: 0 <= i < |t.books| ==> t'.books[i] == t.books[i];
  }

  lemma DeletePreservesConsistent(t: Tables, b: int)
    requires ValidTables(t) && Consistent(t)
    ensures Consistent(AfterDeleteBook(t, b))
  {
    var kept := Filter(t.books, BookIdIsNot(b));
    FilterMembers(t.books, BookIdIsNot(b));
    forall i | 0 <= i < |kept|
      ensures Count(t.orders, OpenLoanOf(kept[i].id)) == (if kept[i].ordered then 1 else 0)
    {
      var j :| 0 <= j < |t.books| && t.books[j] == kept[i];
    }
  }

  /** A guarded call keeps every book's flag in step with its open loans. */
  lemma ApplyPreservesConsistent(t: Tables, c: Call)
    requires ValidTables(t) && Consistent(t)
    requires Guarded(t, c)
    ensures Consistent(Apply(t, c))
  {
    match c
    case Order(u, b, now) => OrderPreservesConsistent(t, u, b, now);
    case Return(u, b) => ReturnPreservesConsistent(t, u, b);
    case InsertBook(book) => InsertPreservesConsistent(t, book);
    case DeleteBook(b) => DeletePreservesConsistent(t, b);
    case _ =>
  }

  /** From any valid, consistent tables, any sequence of guarded calls keeps the store valid and consistent. */
  lemma {:induction false} GuardedRunConsistent(t: Tables, calls: seq<Call>)
    requires ValidTables(t) && Consistent(t)
    requires GuardedRun(t, calls)
    ensures ValidTables(Run(t, calls)) && Consistent(Run(t, calls))
    decreases |calls|
  {
    if |calls| > 0 {
      ApplyPreservesValid(t, calls[0]);
      ApplyPreservesConsistent(t, calls[0]);
      GuardedRunConsistent(Apply(t, calls[0]), calls[1..]);
    }
  }

  lemma EmptyIsConsistent()
    ensures ValidTables(EmptyTables()) && Consistent(EmptyTables())
  {
  }

  // ----- what careless calls do -----

  /** One book (id 1), lent to user 1: a valid and consistent store. */
  function OneLoan(): Tables {
    Tables([], [BookRow(1, "t", "a", Price(0), true, 1)], [OrderRow(1, 1, 1, 0, false)], [BookCategory(1, "c", "s")], 2, 2, 2, 2)
  }

  lemma OneLoanIsConsistent()
    ensures ValidTables(OneLoan()) && Consistent(OneLoan())
  {
    var t := OneLoan();
    CountCons(t.orders, OpenLoanOf(1));
  }

  /** Ordering a book that is already out succeeds and leaves two open loans behind one flag. */
  lemma OrderingLentBookBreaksConsistency()
    ensures OrderReply(OneLoan(), 1)
    ensures !Consistent(AfterOrder(OneLoan(), 2, 1, 100))
  {
    var t := OneLoan();
    CountCons(t.books, BookIdIs(1));
    var o := AfterOrder(t, 2, 1, 100).orders;
    CountCons(o, OpenLoanOf(1));
    CountCons(o[1..], OpenLoanOf(1));
    assert o[1..][1..] == [];
  }

  /** Returning a book one never borrowed answers false yet frees the book while its loan stays open. */
  lemma ReturnWithoutLoanFreesBook()
    ensures !ReturnReply(OneLoan(), 2, 1)
    ensures !AfterReturn(OneLoan(), 2, 1).books[0].ordered
    ensures !Consistent(AfterReturn(OneLoan(), 2, 1))
  {
    var t := OneLoan();
    CountCons(t.orders, LoanOf(2, 1));
    var o := AfterReturn(t, 2, 1).orders;
    CountCons(o, OpenLoanOf(1));
  }

  /** Book 1 lent to user 1 a second time, after an earlier, returned loan. */
  function SecondLoan(): Tables {
    Tables([], [BookRow(1, "t", "a", Price(0), true, 1)],
           [OrderRow(1, 1, 1, 0, true), OrderRow(2, 1, 1, 50, false)], [BookCategory(1, "c", "s")], 2, 2, 3, 2)
  }

  /**
   * A careful return of a book borrowed for the second time closes the loan
   * and keeps the store consistent, but answers false: both (user, book) rows
   * are updated, so the affected count is two.
   */
  lemma SecondLoanReturnAnswersFalse()
    ensures Consistent(SecondLoan()) && Count(SecondLoan().orders, OpenLoanBy(1, 1)) == 1
    ensures !ReturnReply(SecondLoan(), 1, 1)
    ensures Consistent(AfterReturn(SecondLoan(), 1, 1))
  {
    var t := SecondLoan();
    CountCons(t.orders, OpenLoanOf(1));
    CountCons(t.orders[1..], OpenLoanOf(1));
    CountCons(t.orders, OpenLoanBy(1, 1));
    CountCons(t.orders[1..], OpenLoanBy(1, 1));
    CountCons(t.orders, LoanOf(1, 1));
    CountCons(t.orders[1..], LoanOf(1, 1));
    assert t.orders[1..][1..] == [];
    assert ValidTables(t);
    ReturnPreservesConsistent(t, 1, 1);
  }

  // ----- user flags -----

  /** Setting a flag twice is setting it once, and block and active updates commute. */
  lemma FlagUpdatesIdempotent(users: seq<User>, id: int, v: bool, w: bool)
    ensures WithBlocked(WithBlocked(users, id, v), id, v) == WithBlocked(users, id, v)
    ensures WithActive(WithActive(users, id, v), id, v) == WithActive(users, id, v)
    ensures WithBlocked(WithActive(users, id, w), id, v) == WithActive(WithBlocked(users, id, v), id, w)
  {
  }

  /** A flag update touches only the users with that id, and only that one flag. */
  lemma FlagUpdateFrame(users: seq<User>, id: int, v: bool)
    ensures forall i :: 0 <= i < |users| && users[i].id != id ==> WithBlocked(users, id, v)[i] == users[i]
    ensures forall i :: 0 <= i < |users| && users[i].id == id ==> WithBlocked(users, id, v)[i] == users[i].(blocked := v)
    ensures forall i :: 0 <= i < |users| && users[i].id != id ==> WithActive(users, id, v)[i] == users[i]
    ensures forall i :: 0 <= i < |users| && users[i].id == id ==> WithActive(users, id, v)[i] == users[i].(active := v)
  {
  }

  // ----- inserting books -----

  /** A new book is stored available, under a fresh id. */
  lemma InsertedBookAvailable(t: Tables, book: Book)
    requires ValidTables(t)
    ensures Available(AfterInsertBook(t, book).books, t.nextBookId)
    ensures Count(AfterInsertBook(t, book).books, BookIdIs(t.nextBookId)) == 1
    ensures !AfterInsertBook(t, book).books[|t.books|].ordered
  {
    var t' := AfterInsertBook(t, book);
    assert t'.books[|t.books|].id == t.nextBookId;
    assert ValidTables(t') by {
      ApplyPreservesValid(t, InsertBook(book));
    }
    UniqueIdCount(t'.books, t.nextBookId);
  }

  /**
   * A book inserted under a category name that no row has is stored with
   * category id 0, which no row has either, so listing the books fails from
   * then on.
   */
  lemma UnknownCategoryBreaksCatalog(t: Tables, book: Book)
    requires ValidTables(t)
    requires forall i :: 0 <= i < |t.categories| ==> !NamesCategory(t.categories[i], book.category.category, book.category.subCategory)
    ensures AfterInsertBook(t, book).books[|t.books|].categoryId == 0
    ensures Count(t.categories, CategoryIdIs(0)) == 0
  {
    CategoryLookupFirst(t.categories, book.category.category, book.category.subCategory);
    FilterMembers(t.categories, CategoryIdIs(0));
    FilterKeepsNone(t.categories, CategoryIdIs(0));
  }

  /** A book inserted under a category that exists refers to the first row with those names. */
  lemma KnownCategoryIsLinked(t: Tables, book: Book, i: nat)
    requires FirstNaming(t.categories, book.category.category, book.category.subCategory, i)
    ensures AfterInsertBook(t, book).books[|t.books|].categoryId == t.categories[i].id
  {
    CategoryLookupFirst(t.categories, book.category.category, book.category.subCategory);
  }
}
