/**
 * The catalog page of the web client: the books received from the server,
 * grouped into shelves by (category, sub-category), a search over title and
 * author, the book count, ordering a book and the "blocked" check.
 */
module LibraryComponent {
  import opened Wrappers
  import opened Models
  import opened Text
  import opened Seqs
  import opened ApiService

  /**
   * A book as the client holds it. Only `available` ever changes, and the
   * same object is shared by the received list and by the shelves.
   */
  class Book {
    const id: int
    const title: string
    const category: string
    const subCategory: string
    const price: Price
    const author: string
    var available: bool

    constructor (id: int, title: string, category: string, subCategory: string, price: Price, author: string, available: bool)
      ensures this.id == id && this.title == title && this.author == author && this.price == price
      ensures this.category == category && this.subCategory == subCategory && this.available == available
    {
      this.id := id;
      this.title := title;
      this.category := category;
      this.subCategory := subCategory;
      this.price := price;
      this.author := author;
      this.available := available;
    }
  }

  /** A shelf: the books of one (category, sub-category). */
  type Shelf = Group<(string, string), Book>

  function ShelfKey(b: Book): (string, string) {
    (b.category, b.subCategory)
  }

  /** Books whose lower-cased title or author contains the (already lower-cased) query. */
  function Hit(q: string): Book -> bool {
    (b: Book) => Contains(ToLower(b.title), q) || Contains(ToLower(b.author), q)
  }

  function Narrowed(gs: seq<Shelf>, q: string): seq<Shelf> {
    NarrowGroups(gs, Hit(q))
  }

  /** What `search` leaves on display for a lower-cased query. */
  function SearchShelves(gs: seq<Shelf>, q: string): seq<Shelf> {
    if |q| == 0 then gs else Filter(Narrowed(gs, q), NonEmptyGroup)
  }

  /** `isBlocked()`: blocked when no user is logged in; an unreadable token raises. */
  function BlockedOf(info: TokenInfo): Option<bool> {
    match info
    case NoUser => Some(true)
    case Info(u) => Some(u.blocked)
    case Unreadable => None
  }

  /** The user id `orderBook` sends: the token's id, or 0 when nobody is logged in. */
  function OrderingUser(info: TokenInfo): Option<string> {
    match info
    case NoUser => Some("0")
    case Info(u) => Some(u.id)
    case Unreadable => None
  }

  class LibraryComponent {
    const api: Api
    var availableBooks: seq<Book>
    var booksToDisplay: seq<Shelf>

    constructor (api: Api)
      ensures this.api == api && availableBooks == [] && booksToDisplay == []
    {
      this.api := api;
      availableBooks := [];
      booksToDisplay := [];
    }

    /** `ngOnInit`: keep the received books and shelve them. */
    method Init(res: seq<Book>)
      modifies this
      ensures availableBooks == res
      ensures booksToDisplay == GroupBy(res, ShelfKey)
    {
      availableBooks := [];
      for k := 0 to |res|
        invariant availableBooks == res[..k]
      {
        availableBooks := availableBooks + [res[k]];
      }
      assert res[..|res|] == res;
      UpdateList();
    }

    /**
     * Rebuilds the shelves: each book goes onto the shelves with its key, or
     * onto a new shelf at the end when there is none.
     */
    method UpdateList()
      modifies this
      ensures availableBooks == old(availableBooks)
      ensures booksToDisplay == GroupBy(availableBooks, ShelfKey)
      ensures GetBookCount() == |availableBooks|
    {
      booksToDisplay := [];
      for k := 0 to |availableBooks|
        invariant availableBooks == old(availableBooks)
        invariant booksToDisplay == GroupBy(availableBooks[..k], ShelfKey)
      {
        var book := availableBooks[k];
        var exist := HasShelf(book);
        ghost var before := booksToDisplay;
        if exist {
          PushOntoShelf(book);
        } else {
          booksToDisplay := booksToDisplay + [Group(ShelfKey(book), [book])];
        }
        assert booksToDisplay == AddToGroups(before, ShelfKey(book), book);
        assert availableBooks[..k + 1][..k] == availableBooks[..k];
      }
      assert availableBooks[..|availableBooks|] == availableBooks;
      GroupBySizes(availableBooks, ShelfKey);
    }

    /** The first inner loop of `updateList`: whether some shelf already has the book's category and sub-category. */
    method HasShelf(book: Book) returns (exist: bool)
      ensures exist <==> ShelfKey(book) in Keys(booksToDisplay)
    {
      exist := false;
      for j := 0 to |booksToDisplay|
        invariant exist <==> exists i :: 0 <= i < j && booksToDisplay[i].key == ShelfKey(book)
      {
        if book.category == booksToDisplay[j].key.0 && book.subCategory == booksToDisplay[j].key.1 {
          exist := true;
        }
      }
      if exist {
        var i :| 0 <= i < |booksToDisplay| && booksToDisplay[i].key == ShelfKey(book);
        assert Keys(booksToDisplay)[i] == ShelfKey(book);
      }
    }

    /** The second inner loop of `updateList`: appends the book to every shelf with its key. */
    method PushOntoShelf(book: Book)
      modifies this
      ensures availableBooks == old(availableBooks)
      ensures booksToDisplay == PushMatching(old(booksToDisplay), ShelfKey(book), book)
    {
      for j := 0 to |booksToDisplay|
        invariant availableBooks == old(availableBooks)
        invariant |booksToDisplay| == |old(booksToDisplay)|
        invariant forall i :: 0 <= i < j ==> booksToDisplay[i] == PushMatching(old(booksToDisplay), ShelfKey(book), book)[i]
        invariant forall i :: j <= i < |booksToDisplay| ==> booksToDisplay[i] == old(booksToDisplay)[i]
      {
        if book.category == booksToDisplay[j].key.0 && book.subCategory == booksToDisplay[j].key.1 {
          booksToDisplay := booksToDisplay[j := Group(booksToDisplay[j].key, booksToDisplay[j].items + [book])];
        }
      }
    }

    /** The number of books on display. */
    function GetBookCount(): nat
      reads this
    {
      TotalItems(booksToDisplay)
    }

    /** Shelves everything again, then keeps only the hits of the lower-cased query, dropping empty shelves. */
    method Search(value: string)
      modifies this
      ensures availableBooks == old(availableBooks)
      ensures booksToDisplay == SearchShelves(GroupBy(availableBooks, ShelfKey), ToLower(value))
    {
      var q := ToLower(value);
      UpdateList();
      if |q| > 0 {
        booksToDisplay := Filter(Narrowed(booksToDisplay, q), NonEmptyGroup);
      }
    }

    /**
     * Sends the order for `book` (`None` when reading the token raises, so no
     * request is made) and, given the reply `res`, marks the book unavailable
     * on "success" only.
     */
    method OrderBook(book: Book, res: string) returns (url: Option<string>)
      modifies book
      ensures url.None? <==> api.GetTokenUserInfo().Unreadable?
      ensures url.Some? ==> url.value == OrderBookUrl(OrderingUser(api.GetTokenUserInfo()).value, book.id)
      ensures book.available == if url.Some? && res == "success" then false else old(book.available)
    {
      var userid := OrderingUser(api.GetTokenUserInfo());
      if userid.None? {
        return None;
      }
      url := Some(OrderBookUrl(userid.value, book.id));
      if res == "success" {
        book.available := false;
      }
    }

    function IsBlocked(): Option<bool>
      reads this, api
    {
      BlockedOf(api.GetTokenUserInfo())
    }
  }

  // ----- lemmas -----

  /** The empty query shows exactly the shelves `updateList` builds. */
  lemma EmptySearchShowsAll(books: seq<Book>, value: string)
    requires value == ""
    ensures SearchShelves(GroupBy(books, ShelfKey), ToLower(value)) == GroupBy(books, ShelfKey)
  {
  }

  lemma NarrowedShelves(gs: seq<Shelf>, q: string)
    ensures Keys(Narrowed(gs, q)) == Keys(gs)
    ensures forall i :: 0 <= i < |gs| ==> Narrowed(gs, q)[i].items == Filter(gs[i].items, Hit(q))
  {
  }

  /** A non-empty search leaves shelves with distinct keys, none empty, each holding exactly the hits of that key. */
  lemma {:induction false} SearchShelvesShape(books: seq<Book>, q: string)
    requires |q| > 0
    ensures DistinctKeys(SearchShelves(GroupBy(books, ShelfKey), q))
    ensures forall i :: 0 <= i < |SearchShelves(GroupBy(books, ShelfKey), q)| ==>
              var g := SearchShelves(GroupBy(books, ShelfKey), q)[i];
              |g.items| > 0 && g.items == Filter(Filter(books, HasKey(ShelfKey, g.key)), Hit(q))
  {
    NarrowedGroupsShape(books, ShelfKey, Hit(q));
  }

  /** After a non-empty search, a book is on display iff it is a hit. */
  lemma {:induction false} SearchKeepsExactlyHits(books: seq<Book>, q: string, j: nat)
    requires |q| > 0 && j < |books|
    ensures Hit(q)(books[j]) <==>
              exists i :: 0 <= i < |SearchShelves(GroupBy(books, ShelfKey), q)| && books[j] in SearchShelves(GroupBy(books, ShelfKey), q)[i].items
  {
    var gs := GroupBy(books, ShelfKey);
    var r := SearchShelves(gs, q);
    assert r == Filter(NarrowGroups(gs, Hit(q)), NonEmptyGroup);
    if Hit(q)(books[j]) {
      NarrowedGroupsKeepHit(books, ShelfKey, Hit(q), j);
    }
    if exists i :: 0 <= i < |r| && books[j] in r[i].items {
      var i :| 0 <= i < |r| && books[j] in r[i].items;
      NarrowedGroupsOnlyHits(gs, Hit(q), books[j], i);
    }
  }

  /** The surviving shelves keep the order they had after `updateList`. */
  lemma SearchKeepsShelfOrder(books: seq<Book>, q: string)
    requires |q| > 0
    ensures SearchShelves(GroupBy(books, ShelfKey), q) == Filter(Narrowed(GroupBy(books, ShelfKey), q), NonEmptyGroup)
    ensures Keys(Narrowed(GroupBy(books, ShelfKey), q)) == Keys(GroupBy(books, ShelfKey))
  {
  }

  /** With nobody logged in the user counts as blocked; a stored but unreadable token raises. */
  lemma LoggedOutIsBlocked(storage: Storage, decode: Decoder)
    ensures !LoggedIn(storage) ==> BlockedOf(TokenUserInfo(storage, decode)) == Some(true)
    ensures LoggedIn(storage) && decode(storage[AccessTokenKey]).None? ==> BlockedOf(TokenUserInfo(storage, decode)).None?
    ensures TokenUserInfo(storage, decode).Info? ==>
              BlockedOf(TokenUserInfo(storage, decode)) == Some(TokenUserInfo(storage, decode).user.blocked)
  {
  }
}
