/**
 * The circulation store: the Users, Books, Orders and BookCategories tables
 * and the statements run against them. Each statement is a method of
 * `LibraryStore`; its effect is stated by a pure function on a snapshot of
 * the tables (`Tables`), and the lemmas about the store are stated on those
 * functions.
 */
module DataAccess {
  import opened Wrappers
  import opened Models
  import opened Seqs
  import opened Fines

  /** The four tables and the next value of each identity column. */
  datatype Tables = Tables(
    users: seq<User>,
    books: seq<BookRow>,
    orders: seq<OrderRow>,
    categories: seq<BookCategory>,
    nextUserId: int,
    nextBookId: int,
    nextOrderId: int,
    nextCategoryId: int)

  // ----- row tests -----

  function EmailIs(email: string): User -> bool {
    (u: User) => u.email == email
  }

  function CredentialsAre(email: string, password: string): User -> bool {
    (u: User) => u.email == email && u.password == password
  }

  function BookIdIs(id: int): BookRow -> bool {
    (b: BookRow) => b.id == id
  }

  function BookIdIsNot(id: int): BookRow -> bool {
    (b: BookRow) => b.id != id
  }

  function CategoryIdIs(id: int): BookCategory -> bool {
    (c: BookCategory) => c.id == id
  }

  /** Order rows of user `u` for book `b`, returned or not. */
  function LoanOf(u: int, b: int): OrderRow -> bool {
    (o: OrderRow) => o.userId == u && o.bookId == b
  }

  /** Unreturned order rows of user `u` for book `b`. */
  function OpenLoanBy(u: int, b: int): OrderRow -> bool {
    (o: OrderRow) => o.userId == u && o.bookId == b && !o.returned
  }

  /** Unreturned order rows for book `b`, by anyone. */
  function OpenLoanOf(b: int): OrderRow -> bool {
    (o: OrderRow) => o.bookId == b && !o.returned
  }

  // ----- UPDATE statements as functions on a table -----

  /** `update Books set Ordered = v where Id = id`. */
  function WithBookOrdered(books: seq<BookRow>, id: int, v: bool): (r: seq<BookRow>)
    ensures |r| == |books|
    ensures forall i :: 0 <= i < |r| ==> r[i].(ordered := books[i].ordered) == books[i]
    ensures forall i :: 0 <= i < |r| ==> r[i].ordered == (if books[i].id == id then v else books[i].ordered)
  {
    seq(|books|, i requires 0 <= i < |books| => if books[i].id == id then books[i].(ordered := v) else books[i])
  }

  /** `update Orders set Returned = 1 where UserId = u and BookId = b`. */
  function WithReturned(orders: seq<OrderRow>, u: int, b: int): (r: seq<OrderRow>)
    ensures |r| == |orders|
    ensures forall i :: 0 <= i < |r| ==> r[i].(returned := orders[i].returned) == orders[i]
    ensures forall i :: 0 <= i < |r| ==> r[i].returned == (orders[i].returned || LoanOf(u, b)(orders[i]))
  {
    seq(|orders|, i requires 0 <= i < |orders| => if LoanOf(u, b)(orders[i]) then orders[i].(returned := true) else orders[i])
  }

  /** `update Users set Blocked = v where Id = id`. */
  function WithBlocked(users: seq<User>, id: int, v: bool): (r: seq<User>)
    ensures |r| == |users|
    ensures forall i :: 0 <= i < |r| ==> r[i].(blocked := users[i].blocked) == users[i]
    ensures forall i :: 0 <= i < |r| ==> r[i].blocked == (if users[i].id == id then v else users[i].blocked)
  {
    seq(|users|, i requires 0 <= i < |users| => if users[i].id == id then users[i].(blocked := v) else users[i])
  }

  /** `update Users set Active = v where Id = id`. */
  function WithActive(users: seq<User>, id: int, v: bool): (r: seq<User>)
    ensures |r| == |users|
    ensures forall i :: 0 <= i < |r| ==> r[i].(active := users[i].active) == users[i]
    ensures forall i :: 0 <= i < |r| ==> r[i].active == (if users[i].id == id then v else users[i].active)
  {
    seq(|users|, i requires 0 <= i < |users| => if users[i].id == id then users[i].(active := v) else users[i])
  }

  /**
   * `select Id from BookCategories where Category = cat and SubCategory = sub`
   * read as a scalar: the first matching row's id, or 0 when none matches.
   */
  function CategoryLookup(categories: seq<BookCategory>, cat: string, sub: string): int
    decreases |categories|
  {
    if |categories| == 0 then 0
    else if NamesCategory(categories[0], cat, sub) then categories[0].id
    else CategoryLookup(categories[1..], cat, sub)
  }

  predicate NamesCategory(c: BookCategory, cat: string, sub: string) {
    c.category == cat && c.subCategory == sub
  }

  /** Row `i` is the first row with these names. */
  predicate FirstNaming(categories: seq<BookCategory>, cat: string, sub: string, i: int) {
    0 <= i < |categories| && NamesCategory(categories[i], cat, sub) &&
    forall j :: 0 <= j < i ==> !NamesCategory(categories[j], cat, sub)
  }

  /** The lookup yields the id of the first row with these names, or 0 when there is none. */
  lemma {:induction false} CategoryLookupFirst(categories: seq<BookCategory>, cat: string, sub: string)
    ensures (forall i :: 0 <= i < |categories| ==> !NamesCategory(categories[i], cat, sub)) ==>
              CategoryLookup(categories, cat, sub) == 0
    ensures forall i :: FirstNaming(categories, cat, sub, i) ==> CategoryLookup(categories, cat, sub) == categories[i].id
    decreases |categories|
  {
    if |categories| > 0 {
      CategoryLookupFirst(categories[1..], cat, sub);
      forall i | FirstNaming(categories, cat, sub, i) && i > 0
        ensures FirstNaming(categories[1..], cat, sub, i - 1)
      {
        assert forall j :: 1 <= j < |categories| ==> categories[j] == categories[1..][j - 1];
      }
    }
  }

  /** The record a book row and its category row make together. */
  function WithCategory(row: BookRow, c: BookCategory): Book {
    Book(row.id, row.title, row.author, row.price, row.ordered, row.categoryId, c)
  }

  /** `b` is book row `row` joined with its one category row in `categories`. */
  predicate BookJoins(b: Book, row: BookRow, categories: seq<BookCategory>) {
    b == WithCategory(row, b.category) && b.category in categories && b.category.id == row.categoryId
  }

  /** The first user row with this email, as `QueryFirst` picks it. */
  predicate FirstWithEmail(users: seq<User>, email: string, i: int) {
    0 <= i < |users| && users[i].email == email && forall j :: 0 <= j < i ==> users[j].email != email
  }

  // ----- the statements as state transitions -----

  function EmptyTables(): Tables {
    Tables([], [], [], [], 1, 1, 1, 1)
  }

  /** The row an insert into Users stores: every column from the request but the identity; there is no Fine column. */
  function NewUserRow(user: User, id: int): (r: User)
    ensures r.id == id && r.fine == 0
    ensures r.(id := user.id, fine := user.fine) == user
  {
    user.(id := id, fine := 0)
  }

  function AfterCreateUser(t: Tables, user: User): Tables {
    t.(users := t.users + [NewUserRow(user, t.nextUserId)], nextUserId := t.nextUserId + 1)
  }

  /** The order row `OrderBook` inserts. */
  function NewOrderRow(t: Tables, u: int, b: int, now: int): OrderRow {
    OrderRow(t.nextOrderId, u, b, now, false)
  }

  /** `OrderBook`: insert a loan row, then flag the book as ordered. No availability check. */
  function AfterOrder(t: Tables, u: int, b: int, now: int): Tables {
    t.(orders := t.orders + [NewOrderRow(t, u, b, now)], nextOrderId := t.nextOrderId + 1,
       books := WithBookOrdered(t.books, b, true))
  }

  /** `OrderBook` reports true iff the update touched exactly one book row. */
  function OrderReply(t: Tables, b: int): bool {
    Count(t.books, BookIdIs(b)) == 1
  }

  /** `ReturnBook`: clear the book's flag unconditionally, then mark every (u, b) row returned. */
  function AfterReturn(t: Tables, u: int, b: int): Tables {
    t.(books := WithBookOrdered(t.books, b, false), orders := WithReturned(t.orders, u, b))
  }

  /** `ReturnBook` reports true iff exactly one order row matched (u, b), returned or not. */
  function ReturnReply(t: Tables, u: int, b: int): bool {
    Count(t.orders, LoanOf(u, b)) == 1
  }

  /** The row `InsertNewBook` stores: never ordered, category id looked up by name (0 if unknown). */
  function NewBookRow(t: Tables, book: Book): BookRow {
    BookRow(t.nextBookId, book.title, book.author, book.price, false,
            CategoryLookup(t.categories, book.category.category, book.category.subCategory))
  }

  function AfterInsertBook(t: Tables, book: Book): Tables {
    t.(books := t.books + [NewBookRow(t, book)], nextBookId := t.nextBookId + 1)
  }

  function AfterDeleteBook(t: Tables, b: int): Tables {
    t.(books := Filter(t.books, BookIdIsNot(b)))
  }

  /** `DeleteBook` reports true iff exactly one row was deleted. */
  function DeleteReply(t: Tables, b: int): bool {
    Count(t.books, BookIdIs(b)) == 1
  }

  function AfterCreateCategory(t: Tables, c: BookCategory): Tables {
    t.(categories := t.categories + [BookCategory(t.nextCategoryId, c.category, c.subCategory)],
       nextCategoryId := t.nextCategoryId + 1)
  }

  /** A state-changing call on the store. */
  datatype Call =
    | CreateUser(user: User)
    | Order(userId: int, bookId: int, now: int)
    | Return(userId: int, bookId: int)
    | SetBlocked(id: int, blocked: bool)
    | SetActive(id: int, active: bool)
    | InsertBook(book: Book)
    | DeleteBook(bookId: int)
    | CreateCategory(category: BookCategory)

  function Apply(t: Tables, c: Call): Tables {
    match c
    case CreateUser(user) => AfterCreateUser(t, user)
    case Order(u, b, now) => AfterOrder(t, u, b, now)
    case Return(u, b) => AfterReturn(t, u, b)
    case SetBlocked(id, v) => t.(users := WithBlocked(t.users, id, v))
    case SetActive(id, v) => t.(users := WithActive(t.users, id, v))
    case InsertBook(book) => AfterInsertBook(t, book)
    case DeleteBook(b) => AfterDeleteBook(t, b)
    case CreateCategory(cat) => AfterCreateCategory(t, cat)
  }

  function Run(t: Tables, calls: seq<Call>): Tables
    decreases |calls|
  {
    if |calls| == 0 then t else Run(Apply(t, calls[0]), calls[1..])
  }

  // ----- invariants -----

  /** Identity columns: ids are positive, pairwise distinct and below the next identity value; no stored fine. */
  ghost predicate ValidTables(t: Tables) {
    && t.nextUserId >= 1 && t.nextBookId >= 1 && t.nextOrderId >= 1 && t.nextCategoryId >= 1
    && (forall i :: 0 <= i < |t.users| ==> 1 <= t.users[i].id < t.nextUserId && t.users[i].fine == 0)
    && (forall i, j :: 0 <= i < j < |t.users| ==> t.users[i].id != t.users[j].id)
    && (forall i :: 0 <= i < |t.books| ==> 1 <= t.books[i].id < t.nextBookId)
    && (forall i, j :: 0 <= i < j < |t.books| ==> t.books[i].id != t.books[j].id)
    && (forall i :: 0 <= i < |t.orders| ==> 1 <= t.orders[i].id < t.nextOrderId)
    && (forall i, j :: 0 <= i < j < |t.orders| ==> t.orders[i].id != t.orders[j].id)
    && (forall i :: 0 <= i < |t.categories| ==> 1 <= t.categories[i].id < t.nextCategoryId)
    && (forall i, j :: 0 <= i < j < |t.categories| ==> t.categories[i].id != t.categories[j].id)
  }

  /**
   * Circulation consistency: a book is flagged ordered exactly when one
   * unreturned loan of it exists, and no loan is for a book id not yet issued.
   */
  ghost predicate Consistent(t: Tables) {
    && (forall i :: 0 <= i < |t.books| ==>
          Count(t.orders, OpenLoanOf(t.books[i].id)) == (if t.books[i].ordered then 1 else 0))
    && (forall k :: 0 <= k < |t.orders| ==> t.orders[k].bookId < t.nextBookId)
  }

  /** Some row with id `b` is not ordered. */
  predicate Available(books: seq<BookRow>, b: int) {
    exists i :: 0 <= i < |books| && books[i].id == b && !books[i].ordered
  }

  /**
   * How a careful caller uses the store: it orders only an available book and
   * returns only a book it has exactly one unreturned loan of.
   */
  predicate Guarded(t: Tables, c: Call) {
    match c
    case Order(_, b, _) => Available(t.books, b)
    case Return(u, b) => Count(t.orders, OpenLoanBy(u, b)) == 1
    case _ => true
  }

  predicate GuardedRun(t: Tables, calls: seq<Call>)
    decreases |calls|
  {
    |calls| == 0 || (Guarded(t, calls[0]) && GuardedRun(Apply(t, calls[0]), calls[1..]))
  }

  // ----- the store -----

  class LibraryStore {
    var users: seq<User>
    var books: seq<BookRow>
    var orders: seq<OrderRow>
    var categories: seq<BookCategory>
    var nextUserId: int
    var nextBookId: int
    var nextOrderId: int
    var nextCategoryId: int

    function Snapshot(): Tables
      reads this
    {
      Tables(users, books, orders, categories, nextUserId, nextBookId, nextOrderId, nextCategoryId)
    }

    /** An empty database. */
    constructor ()
      ensures Snapshot() == EmptyTables()
    {
      users, books, orders, categories := [], [], [], [];
      nextUserId, nextBookId, nextOrderId, nextCategoryId := 1, 1, 1, 1;
    }

    /** Inserts the user; the insert always affects one row. */
    method CreateUser(user: User) returns (affected: int)
      modifies this
      ensures Snapshot() == Apply(old(Snapshot()), Call.CreateUser(user))
      ensures affected == 1
    {
      users := users + [NewUserRow(user, nextUserId)];
      nextUserId := nextUserId + 1;
      affected := 1;
    }

    /** True iff no user row has this email (`count(*)` read as a bool is "non-zero"). */
    method IsEmailAvailable(email: string) returns (available: bool)
      ensures available <==> forall i :: 0 <= i < |users| ==> users[i].email != email
    {
      var us := users;
      var count := 0;
      var i := 0;
      while i < |us|
        invariant 0 <= i <= |us|
        invariant count == Count(us[..i], EmailIs(email))
      {
        CountSnoc(us[..i], us[i], EmailIs(email));
        assert us[..i + 1] == us[..i] + [us[i]];
        if us[i].email == email {
          count := count + 1;
        }
        i := i + 1;
      }
      assert us[..i] == us;
      CountPositive(us, EmailIs(email));
      var taken := count != 0;
      available := !taken;
    }

    /**
     * Succeeds iff some row matches both email and password; the user then
     * returned is the first row with that email, which under duplicate emails
     * need not be the row whose password matched.
     */
    method AuthenticateUser(email: string, password: string) returns (ok: bool, user: Option<User>)
      ensures ok <==> exists i :: 0 <= i < |users| && users[i].email == email && users[i].password == password
      ensures ok ==> user.Some? && exists i :: FirstWithEmail(users, email, i) && user.value == users[i]
      ensures !ok ==> user == None
    {
      var us := users;
      var count := 0;
      var i := 0;
      while i < |us|
        invariant 0 <= i <= |us|
        invariant count == Count(us[..i], CredentialsAre(email, password))
      {
        CountSnoc(us[..i], us[i], CredentialsAre(email, password));
        assert us[..i + 1] == us[..i] + [us[i]];
        if us[i].email == email && us[i].password == password {
          count := count + 1;
        }
        i := i + 1;
      }
      assert us[..i] == us;
      CountPositive(us, CredentialsAre(email, password));
      ok := count != 0;
      if ok {
        var w :| 0 <= w < |us| && us[w].email == email && us[w].password == password;
        var j := 0;
        while us[j].email != email
          invariant 0 <= j <= w
          invariant forall k :: 0 <= k < j ==> us[k].email != email
          decreases w - j
        {
          j := j + 1;
        }
        assert FirstWithEmail(us, email, j);
        user := Some(us[j]);
      } else {
        user := None;
      }
    }

    /** The category row with this id, when exactly one exists (`QuerySingle` throws otherwise). */
    method SingleCategory(id: int) returns (c: Option<BookCategory>)
      ensures c.Some? <==> Count(categories, CategoryIdIs(id)) == 1
      ensures c.Some? ==> c.value in categories && c.value.id == id
    {
      var cs := categories;
      var count := 0;
      var found: Option<BookCategory> := None;
      var i := 0;
      while i < |cs|
        invariant 0 <= i <= |cs|
        invariant count == Count(cs[..i], CategoryIdIs(id))
        invariant found.Some? ==> found.value in cs && found.value.id == id
        invariant count > 0 ==> found.Some?
      {
        CountSnoc(cs[..i], cs[i], CategoryIdIs(id));
        assert cs[..i + 1] == cs[..i] + [cs[i]];
        if cs[i].id == id {
          count := count + 1;
          found := Some(cs[i]);
        }
        i := i + 1;
      }
      assert cs[..i] == cs;
      c := if count == 1 then found else None;
    }

    /**
     * Every book with its category row. The per-book `QuerySingle` fails the
     * whole call (None) unless each book's category id matches exactly one row.
     */
    method GetAllBooks() returns (r: Option<seq<Book>>)
      ensures r.Some? <==> forall i :: 0 <= i < |books| ==> Count(categories, CategoryIdIs(books[i].categoryId)) == 1
      ensures r.Some? ==> |r.value| == |books| && forall i :: 0 <= i < |books| ==> BookJoins(r.value[i], books[i], categories)
    {
      var bs := books;
      var result: seq<Book> := [];
      var i := 0;
      while i < |bs|
        invariant 0 <= i <= |bs|
        invariant |result| == i
        invariant forall k :: 0 <= k < i ==> Count(categories, CategoryIdIs(bs[k].categoryId)) == 1
        invariant forall k :: 0 <= k < i ==> BookJoins(result[k], bs[k], categories)
      {
        var c := SingleCategory(bs[i].categoryId);
        if c.None? {
          return None;
        }
        result := result + [WithCategory(bs[i], c.value)];
        i := i + 1;
      }
      r := Some(result);
    }

    /** `update Books set Ordered = v where Id = id`, returning the rows affected. */
    method UpdateOrdered(id: int, v: bool) returns (affected: nat)
      modifies this
      ensures Snapshot() == old(Snapshot()).(books := WithBookOrdered(old(books), id, v))
      ensures affected == Count(old(books), BookIdIs(id))
    {
      var bs := books;
      var nb: seq<BookRow> := [];
      affected := 0;
      var i := 0;
      while i < |bs|
        invariant Snapshot() == old(Snapshot())
        invariant 0 <= i <= |bs|
        invariant |nb| == i
        invariant forall k :: 0 <= k < i ==> nb[k] == WithBookOrdered(bs, id, v)[k]
        invariant affected == Count(bs[..i], BookIdIs(id))
      {
        CountSnoc(bs[..i], bs[i], BookIdIs(id));
        assert bs[..i + 1] == bs[..i] + [bs[i]];
        if bs[i].id == id {
          nb := nb + [bs[i].(ordered := v)];
          affected := affected + 1;
        } else {
          nb := nb + [bs[i]];
        }
        i := i + 1;
      }
      assert bs[..i] == bs;
      assert nb == WithBookOrdered(bs, id, v);
      books := nb;
    }

    /** Records a loan of `bookId` by `userId` at time `now`, then flags the book as ordered. */
    method OrderBook(userId: int, bookId: int, now: int) returns (ordered: bool)
      modifies this
      ensures Snapshot() == Apply(old(Snapshot()), Order(userId, bookId, now))
      ensures ordered == OrderReply(old(Snapshot()), bookId)
    {
      orders := orders + [NewOrderRow(Snapshot(), userId, bookId, now)];
      nextOrderId := nextOrderId + 1;
      var inserted := true;
      ordered := false;
      if inserted {
        var updated := UpdateOrdered(bookId, true);
        ordered := updated == 1;
      }
    }

    /** `update Orders set Returned = 1 where UserId = u and BookId = b`, returning the rows affected. */
    method MarkReturned(u: int, b: int) returns (affected: nat)
      modifies this
      ensures Snapshot() == old(Snapshot()).(orders := WithReturned(old(orders), u, b))
      ensures affected == Count(old(orders), LoanOf(u, b))
    {
      var os := orders;
      var no: seq<OrderRow> := [];
      affected := 0;
      var i := 0;
      while i < |os|
        invariant Snapshot() == old(Snapshot())
        invariant 0 <= i <= |os|
        invariant |no| == i
        invariant forall k :: 0 <= k < i ==> no[k] == WithReturned(os, u, b)[k]
        invariant affected == Count(os[..i], LoanOf(u, b))
      {
        CountSnoc(os[..i], os[i], LoanOf(u, b));
        assert os[..i + 1] == os[..i] + [os[i]];
        if os[i].userId == u && os[i].bookId == b {
          no := no + [os[i].(returned := true)];
          affected := affected + 1;
        } else {
          no := no + [os[i]];
        }
        i := i + 1;
      }
      assert os[..i] == os;
      assert no == WithReturned(os, u, b);
      orders := no;
    }

    /** Frees the book, then marks the user's loans of it returned. */
    method ReturnBook(userId: int, bookId: int) returns (returned: bool)
      modifies this
      ensures Snapshot() == Apply(old(Snapshot()), Return(userId, bookId))
      ensures returned == ReturnReply(old(Snapshot()), userId, bookId)
    {
      var _ := UpdateOrdered(bookId, false);
      var affected := MarkReturned(userId, bookId);
      returned := affected == 1;
    }

    /**
     * Every user with the fine recomputed from the LEFT JOIN of users and
     * orders, accumulating over the rows whose user id is the user's.
     */
    method GetUsers(now: int) returns (result: seq<User>)
      ensures |result| == |users|
      ensures forall i :: 0 <= i < |users| ==>
                result[i] == Fined(users[i], LeftJoin(users, orders), now)
      ensures UniqueUserIds(users) ==> forall i :: 0 <= i < |users| ==>
                result[i].fine == users[i].fine + OrdersFine(OrdersOf(orders, users[i].id), now)
    {
      var listOfOrders := LeftJoin(users, orders);
      result := FineUsers(users, listOfOrders, now);
      if UniqueUserIds(users) {
        JoinFinesAreOrdersFines(users, orders, result, now);
      }
    }

    /** The outer loop of `GetUsers`: every user of `us`, in order, `Fined` by the join rows. */
    method FineUsers(us: seq<User>, listOfOrders: seq<JoinRow>, now: int) returns (result: seq<User>)
      ensures |result| == |us|
      ensures forall i :: 0 <= i < |us| ==> result[i] == Fined(us[i], listOfOrders, now)
    {
      result := [];
      var i := 0;
      while i < |us|
        invariant 0 <= i <= |us|
        invariant |result| == i
        invariant forall k :: 0 <= k < i ==> result[k] == Fined(us[k], listOfOrders, now)
      {
        var user := FineUser(us[i], listOfOrders, now);
        result := result + [user];
        i := i + 1;
      }
    }

    /** The body of the outer loop of `GetUsers`: the user's fine raised by the charges of its join rows. */
    method FineUser(u: User, listOfOrders: seq<JoinRow>, now: int) returns (r: User)
      ensures r == Fined(u, listOfOrders, now)
    {
      var rows := Filter(listOfOrders, RowOfUser(u.id));
      var fine := AccumulateFine(rows, u.fine, now);
      r := u.(fine := fine);
    }

    /** The inner loop of `GetUsers`: adds each unreturned loan's overdue charge to `fine`. */
    method AccumulateFine(rows: seq<JoinRow>, fine0: int, now: int) returns (fine: int)
      ensures fine == fine0 + RowsFine(rows, now)
    {
      fine := fine0;
      var j := 0;
      while j < |rows|
        invariant 0 <= j <= |rows|
        invariant fine == fine0 + RowsFine(rows[..j], now)
      {
        var row := rows[j];
        if row.order.Some? && !row.order.value.returned {
          var extraDays := WholeDays(now - (row.order.value.orderedOn + LoanPeriodDays * SecondsPerDay));
          extraDays := if extraDays < 0 then 0 else extraDays;
          fine := fine + extraDays * FinePerDay;
        }
        assert rows[..j + 1][..j] == rows[..j];
        j := j + 1;
      }
      assert rows[..j] == rows;
    }

    /** `update Users set Blocked = v where Id = id`. */
    method UpdateBlocked(id: int, v: bool)
      modifies this
      ensures Snapshot() == Apply(old(Snapshot()), SetBlocked(id, v))
    {
      var us := users;
      var nu: seq<User> := [];
      var i := 0;
      while i < |us|
        invariant Snapshot() == old(Snapshot())
        invariant 0 <= i <= |us|
        invariant |nu| == i
        invariant forall k :: 0 <= k < i ==> nu[k] == WithBlocked(us, id, v)[k]
      {
        nu := nu + [if us[i].id == id then us[i].(blocked := v) else us[i]];
        i := i + 1;
      }
      users := nu;
    }

    /** `update Users set Active = v where Id = id`. */
    method UpdateActive(id: int, v: bool)
      modifies this
      ensures Snapshot() == Apply(old(Snapshot()), SetActive(id, v))
    {
      var us := users;
      var nu: seq<User> := [];
      var i := 0;
      while i < |us|
        invariant Snapshot() == old(Snapshot())
        invariant 0 <= i <= |us|
        invariant |nu| == i
        invariant forall k :: 0 <= k < i ==> nu[k] == WithActive(us, id, v)[k]
      {
        nu := nu + [if us[i].id == id then us[i].(active := v) else us[i]];
        i := i + 1;
      }
      users := nu;
    }

    method BlockUser(userId: int)
      modifies this
      ensures Snapshot() == Apply(old(Snapshot()), SetBlocked(userId, true))
    {
      UpdateBlocked(userId, true);
    }

    method UnblockUser(userId: int)
      modifies this
      ensures Snapshot() == Apply(old(Snapshot()), SetBlocked(userId, false))
    {
      UpdateBlocked(userId, false);
    }

    method ActivateUser(userId: int)
      modifies this
      ensures Snapshot() == Apply(old(Snapshot()), SetActive(userId, true))
    {
      UpdateActive(userId, true);
    }

    method DeactivateUser(userId: int)
      modifies this
      ensures Snapshot() == Apply(old(Snapshot()), SetActive(userId, false))
    {
      UpdateActive(userId, false);
    }

    /** Every category row, in table order. */
    method GetAllCategories() returns (r: seq<BookCategory>)
      ensures r == categories
    {
      r := categories;
    }

    /** The scalar category lookup of `InsertNewBook`. */
    method LookupCategory(cat: string, sub: string) returns (id: int)
      ensures id == CategoryLookup(categories, cat, sub)
    {
      var cs := categories;
      var i := 0;
      while i < |cs| && !NamesCategory(cs[i], cat, sub)
        invariant 0 <= i <= |cs|
        invariant CategoryLookup(cs[i..], cat, sub) == CategoryLookup(cs, cat, sub)
      {
        assert cs[i..][1..] == cs[i + 1..];
        i := i + 1;
      }
      id := if i < |cs| then cs[i].id else 0;
    }

    /** Stores the book as not ordered, under the id of its named category (0 when there is none). */
    method InsertNewBook(book: Book)
      modifies this
      ensures Snapshot() == Apply(old(Snapshot()), InsertBook(book))
    {
      var categoryId := LookupCategory(book.category.category, book.category.subCategory);
      ghost var t := Snapshot();
      assert BookRow(nextBookId, book.title, book.author, book.price, false, categoryId) == NewBookRow(t, book);
      books := books + [BookRow(nextBookId, book.title, book.author, book.price, false, categoryId)];
      nextBookId := nextBookId + 1;
    }

    /** `delete Books where Id = bookId`; true iff exactly one row went. */
    method DeleteBook(bookId: int) returns (deleted: bool)
      modifies this
      ensures Snapshot() == Apply(old(Snapshot()), Call.DeleteBook(bookId))
      ensures deleted == DeleteReply(old(Snapshot()), bookId)
    {
      var bs := books;
      var kept: seq<BookRow> := [];
      var count := 0;
      var i := 0;
      while i < |bs|
        invariant Snapshot() == old(Snapshot())
        invariant 0 <= i <= |bs|
        invariant kept == Filter(bs[..i], BookIdIsNot(bookId))
        invariant count == Count(bs[..i], BookIdIs(bookId))
      {
        CountSnoc(bs[..i], bs[i], BookIdIs(bookId));
        FilterConcat(bs[..i], [bs[i]], BookIdIsNot(bookId));
        FilterSingle(bs[i], BookIdIsNot(bookId));
        assert bs[..i + 1] == bs[..i] + [bs[i]];
        if bs[i].id == bookId {
          count := count + 1;
        } else {
          kept := kept + [bs[i]];
        }
        i := i + 1;
      }
      assert bs[..i] == bs;
      books := kept;
      deleted := count == 1;
    }

    method CreateCategory(bookCategory: BookCategory)
      modifies this
      ensures Snapshot() == Apply(old(Snapshot()), Call.CreateCategory(bookCategory))
    {
      categories := categories + [BookCategory(nextCategoryId, bookCategory.category, bookCategory.subCategory)];
      nextCategoryId := nextCategoryId + 1;
    }
  }
}
