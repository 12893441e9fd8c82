/**
 * Records shared by the store, the controller and the web client: the rows
 * of the Users, Books, BookCategories and Orders tables.
 */
module Models {

  /** Account kinds; a new account created through the controller is always USER. */
  datatype UserType = USER | ADMIN

  /** A row of the Users table; `fine` is not stored and is filled in when users are listed. */
  datatype User = User(
    id: int,
    firstName: string,
    lastName: string,
    email: string,
    mobile: string,
    password: string,
    blocked: bool,
    active: bool,
    createdOn: string,
    userType: UserType,
    fine: int)

  /** A row of the BookCategories table. */
  datatype BookCategory = BookCategory(id: int, category: string, subCategory: string)

  /**
   * A book price. Prices are single-precision floats on which the program does
   * no arithmetic, so they are carried as their IEEE 754 bit pattern.
   */
  datatype Price = Price(bits: bv32)

  /** A book as the store returns it: its row plus the category row it refers to. */
  datatype Book = Book(
    id: int,
    title: string,
    author: string,
    price: Price,
    ordered: bool,
    categoryId: int,
    category: BookCategory)

  /** A row of the Books table. */
  datatype BookRow = BookRow(id: int, title: string, author: string, price: Price, ordered: bool, categoryId: int)

  /** A row of the Orders table; `orderedOn` is a time in whole seconds. */
  datatype OrderRow = OrderRow(id: int, userId: int, bookId: int, orderedOn: int, returned: bool)
}
