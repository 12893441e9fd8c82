/**
 * The HTTP endpoints of the library API. Each action calls the store and
 * maps its result to the reply text; `GetALlBooks` and `GetAllCategories`
 * project what the store returns. The route templates say how a request
 * path binds an action's parameters.
 */
module Controller {
  import opened Wrappers
  import opened Models
  import opened Text
  import opened Seqs
  import opened DataAccess
  import opened Jwt

  /** One entry of the book list sent to the client. */
  datatype CatalogEntry = CatalogEntry(
    id: int,
    title: string,
    category: string,
    subCategory: string,
    price: Price,
    available: bool,
    author: string)

  /** A category and the names of its sub-categories. */
  datatype CategoryNode = CategoryNode(name: string, children: seq<string>)

  /** The reply to a login: a token, "Invalid", or a server error when no token can be made. */
  datatype LoginReply = Issued(token: Token) | Invalid | Fault

  /** A segment of a route template: fixed text or a named parameter. */
  datatype Segment = Literal(text: string) | Param(name: string)

  // ----- projections -----

  function CatalogEntryOf(b: Book): CatalogEntry {
    CatalogEntry(b.id, b.title, b.category.category, b.category.subCategory, b.price, !b.ordered, b.author)
  }

  /** `GetALlBooks`: one entry per book, in order; a book is available iff it is not ordered. */
  function Catalog(books: seq<Book>): (r: seq<CatalogEntry>)
    ensures |r| == |books|
    ensures forall i :: 0 <= i < |r| ==> r[i].id == books[i].id && r[i].available == !books[i].ordered
    ensures forall i :: 0 <= i < |r| ==> r[i].category == books[i].category.category && r[i].subCategory == books[i].category.subCategory
    ensures forall i :: 0 <= i < |r| ==> r[i].title == books[i].title && r[i].author == books[i].author && r[i].price == books[i].price
  {
    seq(|books|, i requires 0 <= i < |books| => CatalogEntryOf(books[i]))
  }

  /**
   * Entry `e` shows book row `row`: its id, title, author, price and
   * availability, and the names of a category row with its category id.
   */
  predicate EntryJoins(e: CatalogEntry, row: BookRow, categories: seq<BookCategory>) {
    && e.id == row.id && e.available == !row.ordered
    && e.title == row.title && e.author == row.author && e.price == row.price
    && exists c :: c in categories && c.id == row.categoryId && e.category == c.category && e.subCategory == c.subCategory
  }

  /** The catalog of books joined with their category rows shows each book row. */
  lemma CatalogOfJoin(bs: seq<Book>, rows: seq<BookRow>, categories: seq<BookCategory>)
    requires |bs| == |rows|
    requires forall i :: 0 <= i < |rows| ==> BookJoins(bs[i], rows[i], categories)
    ensures |Catalog(bs)| == |rows|
    ensures forall i :: 0 <= i < |rows| ==> EntryJoins(Catalog(bs)[i], rows[i], categories)
  {
    forall i | 0 <= i < |rows|
      ensures EntryJoins(Catalog(bs)[i], rows[i], categories)
    {
      assert BookJoins(bs[i], rows[i], categories);
      var c := bs[i].category;
      assert Catalog(bs)[i].category == c.category && Catalog(bs)[i].subCategory == c.subCategory;
    }
  }

  function CategoryName(c: BookCategory): string {
    c.category
  }

  function SubNames(cs: seq<BookCategory>): seq<string> {
    seq(|cs|, i requires 0 <= i < |cs| => cs[i].subCategory)
  }

  /** `GetAllCategories`: the rows grouped by category name, each group listing its sub-category names. */
  function CategoryTree(cs: seq<BookCategory>): seq<CategoryNode> {
    var gs := GroupBy(cs, CategoryName);
    seq(|gs|, i requires 0 <= i < |gs| => CategoryNode(gs[i].key, SubNames(gs[i].items)))
  }

  function NodeNames(nodes: seq<CategoryNode>): seq<string> {
    seq(|nodes|, i requires 0 <= i < |nodes| => nodes[i].name)
  }

  function TotalChildren(nodes: seq<CategoryNode>): nat
    decreases |nodes|
  {
    if |nodes| == 0 then 0 else |nodes[0].children| + TotalChildren(nodes[1..])
  }

  /** The book as `InsertBook` passes it on: title and author trimmed, category names lower-cased. */
  function NormalisedBook(b: Book): Book {
    b.(title := Trim(b.title), author := Trim(b.author),
       category := b.category.(category := ToLower(b.category.category), subCategory := ToLower(b.category.subCategory)))
  }

  function NormalisedCategory(c: BookCategory): BookCategory {
    c.(category := ToLower(c.category), subCategory := ToLower(c.subCategory))
  }

  /** The row `CreateAccount` passes to the store: stamped with the creation time and always a USER. */
  function AccountRow(user: User, createdOn: string): User {
    user.(createdOn := createdOn, userType := USER)
  }

  /** The token settings read from configuration. */
  function ConfiguredJwt(configuration: map<string, string>): Jwt {
    NewJwt(if "Jwt:Key" in configuration then Some(configuration["Jwt:Key"]) else None,
           if "Jwt:Duration" in configuration then Some(configuration["Jwt:Duration"]) else None)
  }

  // ----- routes -----

  const OrderBookRoute: seq<Segment> := [Literal("OrderBook"), Param("userId"), Param("bookId")]
  const ReturnBookRoute: seq<Segment> := [Literal("ReturnBook"), Param("bookId"), Param("userId")]
  const ChangeBlockStatusRoute: seq<Segment> := [Literal("ChangeBlockStatus"), Param("status"), Param("id")]
  const ChangeEnableStatusRoute: seq<Segment> := [Literal("ChangeEnableStatus"), Param("status"), Param("id")]

  /** Matches the segments of a path against a template, binding each parameter to its segment. */
  function Bind(template: seq<Segment>, parts: seq<string>): Option<map<string, string>>
    decreases |template|
  {
    if |template| == 0 then (if |parts| == 0 then Some(map[]) else None)
    else if |parts| == 0 then None
    else
      match Bind(template[1..], parts[1..])
      case None => None
      case Some(rest) =>
        match template[0]
        case Literal(t) => if parts[0] == t then Some(rest) else None
        case Param(n) => Some(rest[n := parts[0]])
  }

  // ----- the controller -----

  class LibraryController {
    const library: LibraryStore
    const configuration: map<string, string>

    constructor (library: LibraryStore, configuration: map<string, string>)
      ensures this.library == library && this.configuration == configuration
    {
      this.library := library;
      this.configuration := configuration;
    }

    /** Registers a user unless the email is taken; `createdOn` is the current time as formatted text. */
    method CreateAccount(user: User, createdOn: string) returns (reply: string)
      modifies library
      ensures (exists i :: 0 <= i < |old(library.users)| && old(library.users)[i].email == user.email) ==>
                reply == "Email is not available." && library.Snapshot() == old(library.Snapshot())
      ensures (forall i :: 0 <= i < |old(library.users)| ==> old(library.users)[i].email != user.email) ==>
                reply == "Account created successfully." &&
                library.Snapshot() == Apply(old(library.Snapshot()), Call.CreateUser(AccountRow(user, createdOn)))
    {
      var available := library.IsEmailAvailable(user.email);
      if !available {
        return "Email is not available.";
      }
      var _ := library.CreateUser(AccountRow(user, createdOn));
      reply := "Account created successfully.";
    }

    /**
     * Issues a token for the user the store authenticates, "Invalid" when no
     * row matches both email and password, a server error when the
     * configured key is empty or the configured lifetime is not a number.
     */
    method Login(email: string, password: string, now: int) returns (reply: LoginReply)
      ensures reply.Invalid? <==> forall i :: 0 <= i < |library.users| ==> !(library.users[i].email == email && library.users[i].password == password)
      ensures reply.Issued? ==>
                (exists i :: FirstWithEmail(library.users, email, i) &&
                   GenerateToken(ConfiguredJwt(configuration), library.users[i], now) == Some(reply.token))
      ensures reply.Fault? ==> ConfiguredJwt(configuration).key == "" || ParseInt32(ConfiguredJwt(configuration).duration).None?
      ensures !reply.Invalid? && ConfiguredJwt(configuration).key != "" && ParseInt32(ConfiguredJwt(configuration).duration).Some? ==> reply.Issued?
    {
      var ok, user := library.AuthenticateUser(email, password);
      if ok {
        if user.Some? {
          var jwt := ConfiguredJwt(configuration);
          var token := GenerateToken(jwt, user.value, now);
          if token.None? {
            return Fault;
          }
          return Issued(token.value);
        }
      }
      reply := Invalid;
    }

    /** The book list, or None when the store fails to join a book with its category. */
    method GetALlBooks() returns (r: Option<seq<CatalogEntry>>)
      ensures r.Some? <==> forall i :: 0 <= i < |library.books| ==> Count(library.categories, CategoryIdIs(library.books[i].categoryId)) == 1
      ensures r.Some? ==> |r.value| == |library.books|
      ensures r.Some? ==> forall i :: 0 <= i < |library.books| ==> EntryJoins(r.value[i], library.books[i], library.categories)
    {
      var books := library.GetAllBooks();
      if books.None? {
        return None;
      }
      r := Some(Catalog(books.value));
      CatalogOfJoin(books.value, library.books, library.categories);
    }

    method OrderBook(userId: int, bookId: int, now: int) returns (reply: string)
      modifies library
      ensures library.Snapshot() == Apply(old(library.Snapshot()), Order(userId, bookId, now))
      ensures reply == if OrderReply(old(library.Snapshot()), bookId) then "success" else "fail"
    {
      var ordered := library.OrderBook(userId, bookId, now);
      reply := if ordered then "success" else "fail";
    }

    /** Route order is book then user; the store is called with the user first. */
    method ReturnBook(bookId: string, userId: string) returns (reply: string)
      requires ParseInt32(bookId).Some? && ParseInt32(userId).Some?
      modifies library
      ensures library.Snapshot() == Apply(old(library.Snapshot()), Return(ParseInt32(userId).value, ParseInt32(bookId).value))
      ensures reply == if ReturnReply(old(library.Snapshot()), ParseInt32(userId).value, ParseInt32(bookId).value) then "success" else "not returned"
    {
      var returned := library.ReturnBook(ParseInt32(userId).value, ParseInt32(bookId).value);
      reply := if returned == true then "success" else "not returned";
    }

    /** Status 1 blocks; any other status unblocks. */
    method ChangeBlockStatus(status: int, id: int) returns (reply: string)
      modifies library
      ensures library.Snapshot() == Apply(old(library.Snapshot()), SetBlocked(id, status == 1))
      ensures reply == "success"
    {
      if status == 1 {
        library.BlockUser(id);
      } else {
        library.UnblockUser(id);
      }
      reply := "success";
    }

    /** Status 1 activates; any other status deactivates. */
    method ChangeEnableStatus(status: int, id: int) returns (reply: string)
      modifies library
      ensures library.Snapshot() == Apply(old(library.Snapshot()), SetActive(id, status == 1))
      ensures reply == "success"
    {
      if status == 1 {
        library.ActivateUser(id);
      } else {
        library.DeactivateUser(id);
      }
      reply := "success";
    }

    method GetAllCategories() returns (r: seq<CategoryNode>)
      ensures r == CategoryTree(library.categories)
    {
      var categories := library.GetAllCategories();
      r := CategoryTree(categories);
    }

    method InsertBook(book: Book) returns (reply: string)
      modifies library
      ensures library.Snapshot() == Apply(old(library.Snapshot()), Call.InsertBook(NormalisedBook(book)))
      ensures reply == "Inserted"
    {
      library.InsertNewBook(NormalisedBook(book));
      reply := "Inserted";
    }

    method DeleteBook(id: int) returns (reply: string)
      modifies library
      ensures library.Snapshot() == Apply(old(library.Snapshot()), Call.DeleteBook(id))
      ensures reply == if DeleteReply(old(library.Snapshot()), id) then "success" else "fail"
    {
      var deleted := library.DeleteBook(id);
      reply := if deleted then "success" else "fail";
    }

    method InsertCategory(bookCategory: BookCategory) returns (reply: string)
      modifies library
      ensures library.Snapshot() == Apply(old(library.Snapshot()), Call.CreateCategory(NormalisedCategory(bookCategory)))
      ensures reply == "Inserted"
    {
      library.CreateCategory(NormalisedCategory(bookCategory));
      reply := "Inserted";
    }
  }

  // ----- lemmas -----

  /** Whatever type the request names, the account is created as a USER, with the given creation time. */
  lemma AccountIsUser(t: Tables, user: User, createdOn: string)
    ensures var u := Apply(t, Call.CreateUser(AccountRow(user, createdOn))).users[|t.users|];
            u.userType == USER && u.createdOn == createdOn && u.blocked == user.blocked && u.active == user.active &&
            u.email == user.email && u.password == user.password
    ensures |Apply(t, Call.CreateUser(AccountRow(user, createdOn))).users| == |t.users| + 1
  {
  }

  /**
   * The category tree lists each category name once, in order of first
   * appearance, and each node's children are the sub-category names of the
   * rows with that name, in row order.
   */
  lemma CategoryTreeShape(cs: seq<BookCategory>)
    ensures NodeNames(CategoryTree(cs)) == Dedup(KeysOf(cs, CategoryName))
    ensures forall i, j :: 0 <= i < j < |CategoryTree(cs)| ==> CategoryTree(cs)[i].name != CategoryTree(cs)[j].name
    ensures forall i :: 0 <= i < |CategoryTree(cs)| ==>
              CategoryTree(cs)[i].children == SubNames(Filter(cs, HasKey(CategoryName, CategoryTree(cs)[i].name)))
    ensures forall i :: 0 <= i < |CategoryTree(cs)| ==> |CategoryTree(cs)[i].children| > 0
  {
    var gs := GroupBy(cs, CategoryName);
    GroupByKeys(cs, CategoryName);
    GroupByItems(cs, CategoryName);
    GroupBySizes(cs, CategoryName);
    assert NodeNames(CategoryTree(cs)) == Keys(gs);
  }

  lemma {:induction false} TotalChildrenOfGroups(gs: seq<Group<string, BookCategory>>)
    ensures TotalChildren(seq(|gs|, i requires 0 <= i < |gs| => CategoryNode(gs[i].key, SubNames(gs[i].items)))) == TotalItems(gs)
    decreases |gs|
  {
    if |gs| > 0 {
      var nodes := seq(|gs|, i requires 0 <= i < |gs| => CategoryNode(gs[i].key, SubNames(gs[i].items)));
      var gs' := gs[1..];
      assert nodes[1..] == seq(|gs'|, i requires 0 <= i < |gs'| => CategoryNode(gs'[i].key, SubNames(gs'[i].items)));
      TotalChildrenOfGroups(gs');
    }
  }

  /** Every category row appears as exactly one child. */
  lemma CategoryTreeCountsRows(cs: seq<BookCategory>)
    ensures TotalChildren(CategoryTree(cs)) == |cs|
  {
    TotalChildrenOfGroups(GroupBy(cs, CategoryName));
    GroupBySizes(cs, CategoryName);
  }

  /** Normalising twice is normalising once; the stored names carry no upper case and no padding. */
  lemma NormalisationSettles(b: Book)
    ensures NormalisedBook(NormalisedBook(b)) == NormalisedBook(b)
    ensures NormalisedCategory(NormalisedCategory(b.category)) == NormalisedCategory(b.category)
    ensures forall i :: 0 <= i < |NormalisedBook(b).category.category| ==> !IsUpper(NormalisedBook(b).category.category[i])
    ensures NormalisedBook(b).title == "" || !IsWhiteSpace(NormalisedBook(b).title[0])
  {
    TrimIdempotent(b.title);
    TrimIdempotent(b.author);
    ToLowerNormalises(b.category.category);
    ToLowerNormalises(b.category.subCategory);
  }
}
